/** The browser client as an explicit session record and pure event handlers: the upload
    validator, the three-step navigator, the analyze-button predicate and start guard, the
    progress markers, the request outcome, download, and "start new analysis".
    The request to the server is not performed here: its outcome is a parameter. */
module Wizard {
  import opened Wrappers
  import opened Text
  import opened Results
  import opened Notifications
  import opened Render

  /** A file the user picked or dropped, as the browser describes it. */
  datatype File = File(name: string, mimeType: string, size: nat)

  /** The MIME types handleFileUpload accepts. */
  const AllowedTypes: set<string> := {
    "application/pdf",
    "application/msword",
    "application/vnd.openxmlformats-officedocument.wordprocessingml.document",
    "text/plain"}

  /** The largest accepted upload: 10 MiB. */
  const MaxUploadBytes: nat := 10 * 1024 * 1024

  /** The shortest trimmed job description that enables analysis. */
  const MinDescription: nat := 50

  const WrongTypeMessage := "Please upload a PDF, DOC, DOCX, or TXT file."
  const TooLargeMessage := "File size must be less than 10MB."
  const UploadedMessage := "Resume uploaded successfully!"
  const NoFileMessage := "Please upload a resume file to proceed."
  const ShortDescriptionMessage := "Please enter a job description (min 50 characters)."
  const NotReadyMessage := "Please upload a resume and enter a job description."
  const NoDownloadMessage := "No resume available for download."
  const DownloadedMessage := "Resume downloaded successfully!"
  const EditMessage := "Resume editing feature coming soon!"

  /** The three wizard panels: 0 upload, 1 job description, 2 review and submit. */
  type StepIndex = i: int | 0 <= i < 3

  /** The client's page-lifetime state. */
  datatype Session = Session(
    file: Option<File>,
    desc: string,
    step: StepIndex,
    results: Option<AnalysisResult>,
    tray: Tray,
    markers: set<nat>,
    active: set<nat>,
    buttonEnabled: bool,
    shown: Option<View>,
    wizardShown: bool)
  // markers: the n for which the page has a progress marker element with id "step<n>";
  // active: the markers that carry the "active" class;
  // buttonEnabled: the analyze button's state as last computed;
  // shown: the result the result view on the page was drawn from, if any (Screen renders it);
  // wizardShown: whether the `.multistep-container` holding the wizard panels is displayed.

  /** `jobDescription.value.trim().length`: JavaScript counts UTF-16 units. */
  function TrimmedLength(desc: string): nat {
    Utf16Length(Trim(desc))
  }

  /** The analyze button is enabled exactly when a file is stored and the trimmed description
      has a length of at least 50; 25 astral characters are enough. */
  predicate AnalyzeEnabled(file: Option<File>, desc: string)
    ensures AnalyzeEnabled(file, desc) ==> file.Some? && 2 * |desc| >= MinDescription
  {
    file.Some? && TrimmedLength(desc) >= MinDescription
  }

  /** For a description inside the Basic Multilingual Plane the length test counts characters. */
  lemma EnabledOnBmp(file: Option<File>, desc: string)
    requires forall k :: 0 <= k < |desc| ==> !IsAstral(desc[k])
    ensures TrimmedLength(desc) == |Trim(desc)|
    ensures AnalyzeEnabled(file, desc) <==> file.Some? && |Trim(desc)| >= MinDescription
  {
    var t := Trim(desc);
    var i, j :| TrimAt(t, desc, JsWhitespace, i, j);
    assert forall k :: 0 <= k < |t| ==> t[k] == desc[i + k];
  }

  /** The guard at the top of startAnalysis: a file and a non-empty trimmed description, that is,
      a description holding some character other than whitespace. */
  predicate StartGuard(file: Option<File>, desc: string)
    ensures StartGuard(file, desc) <==> file.Some? && exists c :: c in desc && c !in JsWhitespace
  {
    TrimWithChars(desc, JsWhitespace);
    assert Trim(desc) != "" ==> Trim(desc)[0] in Trim(desc);
    file.Some? && Trim(desc) != ""
  }

  /** Every state in which the button is enabled passes the guard; the guard alone is weaker. */
  lemma EnabledPassesGuard(file: Option<File>, desc: string)
    ensures AnalyzeEnabled(file, desc) ==> StartGuard(file, desc)
    ensures StartGuard(Some(File("cv.txt", "text/plain", 1)), "x")
    ensures !AnalyzeEnabled(Some(File("cv.txt", "text/plain", 1)), "x")
  {
    TrimWithNoop("x", JsWhitespace);
  }

  // ---------------------------------------------------------------- page load

  /** The page after DOMContentLoaded: nothing stored, the first panel shown. */
  function Initial(markers: set<nat>, active: set<nat>, desc: string): (s: Session)
    ensures s.file.None? && s.results.None? && s.step == 0 && s.shown.None? && s.wizardShown
    ensures !s.buttonEnabled
  {
    Session(None, desc, 0, None, EmptyTray(), markers, active, AnalyzeEnabled(None, desc), None, true)
  }

  // ---------------------------------------------------------------- progress markers

  /** activateStep(n): clears every marker, then marks step1 .. stepn where they exist. */
  function ActivateStep(markers: set<nat>, n: int): (active: set<nat>)
    ensures forall i :: i in active <==> i in markers && 1 <= i <= n
    decreases n
  {
    if n < 1 then {}
    else ActivateStep(markers, n - 1) + (if n in markers then {n} else {})
  }

  /** Typing marks markers 1 and 2; a later upload marks only 1: the markers are not additive. */
  lemma UploadAfterTypingShrinksMarkers(s: Session, text: string, f: File)
    requires 1 in s.markers && 2 in s.markers
    requires f.mimeType in AllowedTypes && f.size <= MaxUploadBytes
    ensures InputDescription(s, text).active == {1, 2}
    ensures UploadFile(InputDescription(s, text), f).active == {1}
  {
    assert InputDescription(s, text).active == {1, 2};
    assert UploadFile(InputDescription(s, text), f).active == {1};
  }

  // ---------------------------------------------------------------- upload

  /** The checks of handleFileUpload, type first. */
  datatype UploadVerdict = Accepted | WrongType | TooLarge

  function CheckUpload(f: File): (v: UploadVerdict)
    ensures v == WrongType <==> f.mimeType !in AllowedTypes
    ensures v == TooLarge <==> f.mimeType in AllowedTypes && f.size > MaxUploadBytes
    ensures v == Accepted <==> f.mimeType in AllowedTypes && f.size <= MaxUploadBytes
  {
    if f.mimeType !in AllowedTypes then WrongType
    else if f.size > MaxUploadBytes then TooLarge
    else Accepted
  }

  /** handleFileUpload: a rejected file only raises an error notification; an accepted one is
      stored, marks progress marker 1, recomputes the button and raises a success notification. */
  function UploadFile(s: Session, f: File): (s': Session)
    ensures f.mimeType !in AllowedTypes ==> s' == s.(tray := Show(s.tray, WrongTypeMessage, "error"))
    ensures f.mimeType in AllowedTypes && f.size > MaxUploadBytes ==>
      s' == s.(tray := Show(s.tray, TooLargeMessage, "error"))
    ensures f.mimeType in AllowedTypes && f.size <= MaxUploadBytes ==>
      && s'.file == Some(f)
      && s'.active == ActivateStep(s.markers, 1)
      && s'.buttonEnabled == AnalyzeEnabled(Some(f), s.desc)
      && s'.tray == Show(s.tray, UploadedMessage, "success")
      && s' == s.(file := s'.file, active := s'.active, buttonEnabled := s'.buttonEnabled, tray := s'.tray)
  {
    match CheckUpload(f)
    case WrongType => s.(tray := Show(s.tray, WrongTypeMessage, "error"))
    case TooLarge => s.(tray := Show(s.tray, TooLargeMessage, "error"))
    case Accepted =>
      var s1 := s.(file := Some(f));
      var s2 := s1.(active := ActivateStep(s1.markers, 1));
      var s3 := s2.(buttonEnabled := AnalyzeEnabled(s2.file, s2.desc));
      s3.(tray := Show(s3.tray, UploadedMessage, "success"))
  }

  /** handleDrop and handleFileSelect: only the first of the files is considered. */
  function ReceiveFiles(s: Session, files: seq<File>): (s': Session)
    ensures files == [] ==> s' == s
    ensures files != [] ==> s' == UploadFile(s, files[0])
  {
    if |files| > 0 then UploadFile(s, files[0]) else s
  }

  /** The limit is inclusive, and a wrongly typed file gets the type message whatever its size. */
  lemma UploadBoundaries(s: Session, name: string, mime: string)
    ensures mime in AllowedTypes ==> UploadFile(s, File(name, mime, MaxUploadBytes)).file == Some(File(name, mime, MaxUploadBytes))
    ensures mime in AllowedTypes ==> UploadFile(s, File(name, mime, MaxUploadBytes + 1)).file == s.file
    ensures mime !in AllowedTypes ==>
      UploadFile(s, File(name, mime, MaxUploadBytes + 1)).tray.notes[0].message == WrongTypeMessage
  {
  }

  /** removeFile: forgets the stored file when asked about the resume. */
  function RemoveFile(s: Session, kind: string): (s': Session)
    ensures kind == "resume" ==> s'.file.None? && !s'.buttonEnabled
    ensures kind == "resume" ==> s' == s.(file := None, buttonEnabled := false)
    ensures kind != "resume" ==> s' == s
  {
    if kind == "resume" then
      var s1 := s.(file := None);
      s1.(buttonEnabled := AnalyzeEnabled(s1.file, s1.desc))
    else s
  }

  // ---------------------------------------------------------------- job description

  /** The input handler of the job description: stores the text, recomputes the button and
      marks progress markers 1 and 2. */
  function InputDescription(s: Session, text: string): (s': Session)
    ensures s'.desc == text && s'.buttonEnabled == AnalyzeEnabled(s.file, text)
    ensures s'.active == ActivateStep(s.markers, 2)
    ensures s' == s.(desc := text, buttonEnabled := s'.buttonEnabled, active := s'.active)
  {
    var s1 := s.(desc := text, buttonEnabled := AnalyzeEnabled(s.file, text));
    s1.(active := ActivateStep(s1.markers, 2))
  }

  /** clearJobDescription. */
  function ClearDescription(s: Session): (s': Session)
    ensures s'.desc == "" && !s'.buttonEnabled
    ensures s' == s.(desc := "", buttonEnabled := false)
  {
    assert Trim("") == "";
    s.(desc := "", buttonEnabled := AnalyzeEnabled(s.file, ""))
  }

  // ---------------------------------------------------------------- navigation

  /** What showStep(k) leaves on the page. */
  datatype Indicator = Indicator(active: bool, completed: bool)

  /** The display state of the three panels: visible exactly for the current step. */
  function Panels(step: StepIndex): seq<bool> {
    seq(3, i requires 0 <= i < 3 => i == step)
  }

  /** The stepper indicators (as many as the page has): active at the current step, completed
      before it. */
  function Indicators(step: StepIndex, count: nat): seq<Indicator> {
    seq(count, i requires 0 <= i < count => Indicator(i == step, i < step))
  }

  /** The number of true entries. */
  function CountTrue(bs: seq<bool>): nat {
    if bs == [] then 0 else (if bs[0] then 1 else 0) + CountTrue(bs[1..])
  }

  /** After showStep(k) exactly one panel is visible, the one at k. When the page has an
      indicator at k it is the only active one; every indicator before an active one is
      completed and none after it is, and no indicator is both active and completed. */
  lemma ShowStepView(step: StepIndex, count: nat)
    ensures CountTrue(Panels(step)) == 1 && Panels(step)[step]
    ensures step < count ==> Indicators(step, count)[step].active
    ensures forall i, j :: 0 <= i < j < count && Indicators(step, count)[i].active ==>
      !Indicators(step, count)[j].active && !Indicators(step, count)[j].completed
    ensures forall i, j :: 0 <= i < j < count && Indicators(step, count)[j].active ==>
      !Indicators(step, count)[i].active && Indicators(step, count)[i].completed
    ensures forall i :: 0 <= i < count ==>
      !(Indicators(step, count)[i].active && Indicators(step, count)[i].completed)
  {
    CountOneHot(Panels(step), step);
  }

  /** A sequence that is true at exactly one position counts one true entry. */
  lemma {:induction false} CountOneHot(bs: seq<bool>, k: int)
    requires 0 <= k < |bs|
    requires forall i :: 0 <= i < |bs| ==> (bs[i] <==> i == k)
    ensures CountTrue(bs) == 1
  {
    if k == 0 {
      CountNone(bs[1..]);
    } else {
      CountOneHot(bs[1..], k - 1);
    }
  }

  /** A sequence with no true entry counts none. */
  lemma {:induction false} CountNone(bs: seq<bool>)
    requires forall i :: 0 <= i < |bs| ==> !bs[i]
    ensures CountTrue(bs) == 0
  {
    if bs != [] {
      CountNone(bs[1..]);
    }
  }

  /** showStep(k): panel k becomes the only visible one; nothing else in the session changes. */
  function ShowStep(s: Session, k: StepIndex): (s': Session)
    ensures Panels(s'.step)[k] && CountTrue(Panels(s'.step)) == 1
    ensures s' == s.(step := k)
  {
    ShowStepView(k, 0);
    s.(step := k)
  }

  /** "Next" on the upload panel: to the description panel iff a file is stored. */
  function NextFromUpload(s: Session): (s': Session)
    ensures s.file.Some? ==> s' == s.(step := 1)
    ensures s.file.None? ==> s' == s.(tray := Show(s.tray, NoFileMessage, "error"))
  {
    if s.file.Some? then ShowStep(s, 1) else s.(tray := Show(s.tray, NoFileMessage, "error"))
  }

  /** "Next" on the description panel: to the review panel iff the trimmed description has a
      length of at least 50. */
  function NextFromDescription(s: Session): (s': Session)
    ensures TrimmedLength(s.desc) >= MinDescription ==> s' == s.(step := 2)
    ensures TrimmedLength(s.desc) < MinDescription ==> s' == s.(tray := Show(s.tray, ShortDescriptionMessage, "error"))
  {
    if TrimmedLength(s.desc) >= MinDescription then ShowStep(s, 2)
    else s.(tray := Show(s.tray, ShortDescriptionMessage, "error"))
  }

  /** "Back" on the description panel: always to the upload panel. */
  function BackToUpload(s: Session): (s': Session)
    ensures s' == s.(step := 0)
  {
    ShowStep(s, 0)
  }

  /** "Back" on the review panel: always to the description panel. */
  function BackToDescription(s: Session): (s': Session)
    ensures s' == s.(step := 1)
  {
    ShowStep(s, 1)
  }

  /** A description of 49 characters of the Basic Multilingual Plane without surrounding
      whitespace does not advance; one of 50 does. */
  lemma DescriptionBoundary(s: Session, d49: string, c: char)
    requires |d49| == 49 && c !in JsWhitespace && !IsAstral(c)
    requires forall k :: 0 <= k < |d49| ==> d49[k] !in JsWhitespace && !IsAstral(d49[k])
    ensures NextFromDescription(s.(desc := d49)).step == s.step
    ensures NextFromDescription(s.(desc := d49 + [c])).step == 2
  {
    TrimWithNoop(d49, JsWhitespace);
    TrimWithNoop(d49 + [c], JsWhitespace);
    assert forall k :: 0 <= k < |d49 + [c]| ==> !IsAstral((d49 + [c])[k]);
  }

  // ---------------------------------------------------------------- analysis

  /** How the request to the analysis endpoint ended: a decoded record, or any failure (network
      error, a status outside 2xx, a body that is not JSON). */
  datatype FetchOutcome = Fetched(result: AnalysisResult) | FetchFailed

  /** The job description handed to the request's form data, before the multipart encoding
      writes its line breaks as CRLF. */
  function SentDescription(s: Session): string {
    Trim(s.desc)
  }

  /** startAnalysis: refused with a notification unless the guard holds; otherwise the wizard
      container is hidden and the result is shown, and it is stored only when the request
      succeeded; after a failure the fixed demo result is shown and the stored result stays as
      it was. */
  function StartAnalysis(s: Session, outcome: FetchOutcome): (s': Session)
    ensures !StartGuard(s.file, s.desc) ==> s' == s.(tray := Show(s.tray, NotReadyMessage, "error"))
    ensures StartGuard(s.file, s.desc) && outcome.Fetched? ==>
      s' == s.(results := Some(outcome.result), shown := Some(ResultView(outcome.result)), wizardShown := false)
    ensures StartGuard(s.file, s.desc) && outcome.FetchFailed? ==>
      s' == s.(shown := Some(DemoView), wizardShown := false)
  {
    if !StartGuard(s.file, s.desc) then s.(tray := Show(s.tray, NotReadyMessage, "error"))
    else
      var hidden := s.(wizardShown := false);
      match outcome
      case Fetched(r) => hidden.(results := Some(r), shown := Some(ResultView(r)))
      case FetchFailed => hidden.(shown := Some(DemoView))
  }

  /** downloadResume: nothing is saved unless a stored result has a non-empty resume; otherwise
      that resume is what the saved document embeds. */
  function Download(s: Session): (r: (Session, Option<string>))
    ensures r.1.None? <==> s.results.None? || s.results.value.optimizedResume.None?
                           || s.results.value.optimizedResume.value == ""
    ensures r.1.Some? ==> r.1 == s.results.value.optimizedResume
    ensures r.1.None? ==> r.0 == s.(tray := Show(s.tray, NoDownloadMessage, "error"))
    ensures r.1.Some? ==> r.0 == s.(tray := Show(s.tray, DownloadedMessage, "success"))
  {
    if s.results.None? || s.results.value.optimizedResume.None?
       || s.results.value.optimizedResume.value == ""
    then (s.(tray := Show(s.tray, NoDownloadMessage, "error")), None)
    else (s.(tray := Show(s.tray, DownloadedMessage, "success")), s.results.value.optimizedResume)
  }

  /** After a failed request on a session with no stored result, the demo result is on screen
      but downloading saves nothing and reports an error. */
  lemma DownloadAfterFallback(s: Session)
    requires StartGuard(s.file, s.desc) && s.results.None?
    ensures StartAnalysis(s, FetchFailed).shown == Some(DemoView)
    ensures Download(StartAnalysis(s, FetchFailed)).1.None?
    ensures Download(StartAnalysis(s, FetchFailed)).0.tray == Show(s.tray, NoDownloadMessage, "error")
  {
  }

  /** editResume. */
  function EditResume(s: Session): Session {
    s.(tray := Show(s.tray, EditMessage, "info"))
  }

  const ShareHead := "I got a "
  const ShareTail := "% match for this job position!"

  /** The text shareResults offers: the stored score, negative ones included, or "high" when none
      is stored or it is 0. */
  function ShareText(results: Option<AnalysisResult>): (text: string)
    ensures results.Some? && results.value.matchScore.Some? && results.value.matchScore.value != 0 ==>
      text == ShareHead + IntToString(results.value.matchScore.value) + ShareTail
    ensures results.None? || results.value.matchScore.None? || results.value.matchScore.value == 0 ==>
      text == ShareHead + "high" + ShareTail
  {
    var score :=
      if results.Some? && results.value.matchScore.Some? && results.value.matchScore.value != 0
      then IntToString(results.value.matchScore.value)
      else "high";
    ShareHead + score + ShareTail
  }

  /** A positive stored score can be read back from the shared text, between its fixed head
      and tail. */
  lemma ShareTextCarriesScore(r: AnalysisResult)
    requires r.matchScore.Some? && r.matchScore.value > 0
    ensures var text := ShareText(Some(r));
      && |text| > |ShareHead| + |ShareTail|
      && ParseDecimal(text[|ShareHead|..|text| - |ShareTail|]) == r.matchScore.value
  {
    var digits := NatToString(r.matchScore.value);
    var text := ShareText(Some(r));
    assert text[|ShareHead|..|text| - |ShareTail|] == digits;
    ParseNatToString(r.matchScore.value);
  }

  /** startNewAnalysis: forgets the file, the result and the description, leaves only marker 1
      active, hides the result view and recomputes the button. It does not call showStep, so
      the panel index stays as it was, and it does not show the wizard container either (it
      shows `.analyzer-container` instead), so after an analysis the wizard panels stay hidden.
      Without a step1 marker the handler stops at the failing lookup, after clearing the markers
      and before touching the views or the button. */
  function StartNewAnalysis(s: Session): (s': Session)
    ensures s'.file.None? && s'.results.None? && s'.desc == ""
    ensures s'.step == s.step && s'.tray == s.tray && s'.markers == s.markers && s'.wizardShown == s.wizardShown
    ensures 1 in s.markers ==> s'.active == {1} && s'.shown.None? && !s'.buttonEnabled
    ensures 1 !in s.markers ==> s'.active == {} && s'.shown == s.shown && s'.buttonEnabled == s.buttonEnabled
  {
    var s1 := s.(file := None, results := None, desc := "", active := {});
    if 1 !in s1.markers then s1
    else
      assert Trim("") == "";
      s1.(active := {1}, shown := None, buttonEnabled := AnalyzeEnabled(None, ""))
  }

  // ---------------------------------------------------------------- the session as a state machine

  datatype Event =
    | Files(files: seq<File>)
    | Remove(kind: string)
    | Type(text: string)
    | Clear
    | ToDescription
    | ToUpload
    | ToReview
    | BackFromReview
    | Analyze(outcome: FetchOutcome)
    | Save
    | Edit
    | NewAnalysis
    | Close(id: nat)

  function Apply(s: Session, e: Event): Session {
    match e
    case Files(fs) => ReceiveFiles(s, fs)
    case Remove(kind) => RemoveFile(s, kind)
    case Type(text) => InputDescription(s, text)
    case Clear => ClearDescription(s)
    case ToDescription => NextFromUpload(s)
    case ToUpload => BackToUpload(s)
    case ToReview => NextFromDescription(s)
    case BackFromReview => BackToDescription(s)
    case Analyze(outcome) => StartAnalysis(s, outcome)
    case Save => Download(s).0
    case Edit => EditResume(s)
    case NewAnalysis => StartNewAnalysis(s)
    case Close(id) => s.(tray := Dismiss(s.tray, id))
  }

  /** The session invariant on a page with a step1 marker: the button reflects the stored file
      and description, active markers exist, and notification identities are unique. */
  ghost predicate Valid(s: Session) {
    && 1 in s.markers
    && s.buttonEnabled == AnalyzeEnabled(s.file, s.desc)
    && s.active <= s.markers
    && WellFormed(s.tray)
  }

  /** Every event keeps the session valid. */
  lemma ApplyPreservesValid(s: Session, e: Event)
    requires Valid(s)
    ensures Valid(Apply(s, e))
  {
    if e.Files? || e.Remove? || e.Type? || e.Clear? || e.NewAnalysis? || e.Close? {
      FormEventPreservesValid(s, e);
    } else {
      StepEventPreservesValid(s, e);
    }
  }

  /** ApplyPreservesValid for the events that change the file, the description or the tray. */
  lemma FormEventPreservesValid(s: Session, e: Event)
    requires Valid(s)
    requires e.Files? || e.Remove? || e.Type? || e.Clear? || e.NewAnalysis? || e.Close?
    ensures Valid(Apply(s, e))
  {
    match e
    case Close(id) => DismissPreservesWellFormed(s.tray, id);
    case NewAnalysis => NewAnalysisPreservesValid(s);
    case Clear =>
    case Files(fs) => FilesPreserveValid(s, fs);
    case Remove(kind) => RemovePreservesValid(s, kind);
    case Type(text) =>
  }

  /** A file selection or drop keeps the session valid. */
  lemma FilesPreserveValid(s: Session, fs: seq<File>)
    requires Valid(s)
    ensures Valid(ReceiveFiles(s, fs))
  {
  }

  /** Removing the resume keeps the session valid. */
  lemma RemovePreservesValid(s: Session, kind: string)
    requires Valid(s)
    ensures Valid(RemoveFile(s, kind))
  {
  }

  /** Starting over keeps the session valid. */
  lemma NewAnalysisPreservesValid(s: Session)
    requires Valid(s)
    ensures Valid(StartNewAnalysis(s))
  {
  }

  /** ApplyPreservesValid for the navigation, analysis, download and edit events. */
  lemma StepEventPreservesValid(s: Session, e: Event)
    requires Valid(s)
    requires !(e.Files? || e.Remove? || e.Type? || e.Clear? || e.NewAnalysis? || e.Close?)
    ensures Valid(Apply(s, e))
  {
    match e
    case Analyze(outcome) => AnalyzePreservesValid(s, outcome);
    case Save => assert Apply(s, e) == Download(s).0;
    case ToDescription =>
    case ToUpload =>
    case ToReview =>
    case BackFromReview =>
    case Edit =>
  }

  /** An analysis, whatever the fetch brings back, keeps the session valid. */
  lemma AnalyzePreservesValid(s: Session, outcome: FetchOutcome)
    requires Valid(s)
    ensures Valid(StartAnalysis(s, outcome))
  {
  }

  function Run(s: Session, events: seq<Event>): Session
    decreases |events|
  {
    if events == [] then s else Run(Apply(s, events[0]), events[1..])
  }

  /** Any sequence of events keeps the session valid; in particular the button is enabled
      exactly when a file is stored and the trimmed description is long enough. */
  lemma {:induction false} RunPreservesValid(s: Session, events: seq<Event>)
    requires Valid(s)
    ensures Valid(Run(s, events))
    ensures Run(s, events).buttonEnabled <==> AnalyzeEnabled(Run(s, events).file, Run(s, events).desc)
    decreases |events|
  {
    if events != [] {
      ApplyPreservesValid(s, events[0]);
      RunPreservesValid(Apply(s, events[0]), events[1..]);
    }
  }

  /** No handler shows the wizard container. */
  lemma ApplyKeepsWizardHidden(s: Session, e: Event)
    requires !s.wizardShown
    ensures !Apply(s, e).wizardShown
  {
  }

  /** Once the wizard container is hidden, no sequence of events shows it again; "start new
      analysis" included. */
  lemma {:induction false} WizardStaysHidden(s: Session, events: seq<Event>)
    requires !s.wizardShown
    ensures !Run(s, events).wizardShown
    decreases |events|
  {
    if events != [] {
      ApplyKeepsWizardHidden(s, events[0]);
      WizardStaysHidden(Apply(s, events[0]), events[1..]);
    }
  }

  /** An analysis that starts hides the wizard panels for good, whatever events follow. */
  lemma AnalysisHidesWizardForGood(s: Session, outcome: FetchOutcome, events: seq<Event>)
    requires StartGuard(s.file, s.desc)
    ensures !Run(StartAnalysis(s, outcome), events).wizardShown
  {
    WizardStaysHidden(StartAnalysis(s, outcome), events);
  }

  /** A valid page-load state. */
  lemma InitialValid(markers: set<nat>, active: set<nat>, desc: string)
    requires 1 in markers && active <= markers
    ensures Valid(Initial(markers, active, desc))
  {
  }
}
