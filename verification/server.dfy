/** The analysis endpoint: the file-name allow-list, text extraction dispatch, the ordered
    validation chain of the request handler, extraction of a JSON candidate from the AI reply
    with its fallback, and the keyword-matching demo result used when the AI is unavailable.
    The foreign parts (secure_filename, the PDF and DOCX readers, UTF-8 decoding, the AI call
    and json.loads) are inputs: their outcomes are carried in the request or passed in. */
module Server {
  import opened Wrappers
  import opened Text
  import opened Results

  function Min(a: int, b: int): int {
    if a <= b then a else b
  }

  // ---------------------------------------------------------------- file names

  const AllowedExtensions: set<string> := {"pdf", "doc", "docx", "txt"}

  /** `filename.rsplit('.', 1)[1]`: the text after the last dot; None where Python would raise
      IndexError because there is no dot. */
  function Extension(filename: string): (ext: Option<string>)
    ensures ext.None? <==> '.' !in filename
    ensures ext.Some? ==>
      && '.' !in ext.value
      && |ext.value| < |filename|
      && filename == filename[..|filename| - |ext.value| - 1] + "." + ext.value
  {
    match LastIndexOf(filename, '.')
    case None => None
    case Some(i) =>
      assert filename == filename[..i] + "." + filename[i + 1..];
      Some(filename[i + 1..])
  }

  /** allowed_file. AllowedFileSpec characterizes it by stem and extension. */
  predicate AllowedFile(filename: string) {
    match Extension(filename)
    case None => false
    case Some(e) => Lower(e) in AllowedExtensions
  }

  /** filename is stem, a dot, and a dot-free extension. */
  ghost predicate SplitsAt(filename: string, stem: string, ext: string) {
    filename == stem + "." + ext && '.' !in ext
  }

  /** A name is allowed exactly when it ends in a dot and a dot-free extension whose
      lower-cased form is pdf, doc, docx or txt. */
  lemma AllowedFileSpec(filename: string)
    ensures AllowedFile(filename) <==>
      exists stem, ext :: SplitsAt(filename, stem, ext) && Lower(ext) in AllowedExtensions
  {
    match Extension(filename)
    case None =>
    case Some(e) =>
      var stem := filename[..|filename| - |e| - 1];
      assert SplitsAt(filename, stem, e);
      forall stem', ext' | SplitsAt(filename, stem', ext')
        ensures ext' == e
      {
        ExtensionUnique(filename, stem', ext');
      }
  }

  /** The extension of a stem-dot-extension split is the one Extension finds. */
  lemma ExtensionUnique(filename: string, stem: string, ext: string)
    requires SplitsAt(filename, stem, ext)
    ensures Extension(filename) == Some(ext)
  {
    var e := Extension(filename).value;
    var n := |filename|;
    assert filename[|stem|] == '.';
    assert filename[|stem| + 1..] == ext;
    assert e == filename[n - |e|..];
  }

  /** Names the allow-list accepts: the extension is compared lower-cased, after the last dot. */
  lemma AllowedFileExamples()
    ensures AllowedFile("resume.PDF")
    ensures AllowedFile("cv.final.Docx")
  {
    assert SplitsAt("resume.PDF", "resume", "PDF");
    assert Lower("PDF") == "pdf";
    ExtensionUnique("resume.PDF", "resume", "PDF");
    assert SplitsAt("cv.final.Docx", "cv.final", "Docx");
    assert Lower("Docx") == "docx";
    ExtensionUnique("cv.final.Docx", "cv.final", "Docx");
  }

  /** Names the allow-list refuses: one without a dot, and one whose last extension is not listed. */
  lemma DisallowedFileExamples()
    ensures !AllowedFile("pdf")
    ensures !AllowedFile("resume.pdf.exe")
  {
    assert SplitsAt("resume.pdf.exe", "resume.pdf", "exe");
    ExtensionUnique("resume.pdf.exe", "resume.pdf", "exe");
    assert Lower("exe") == "exe";
  }

  // ---------------------------------------------------------------- text extraction

  /** What the foreign readers produce for one uploaded file: the PDF reader, the DOCX reader
      (used for .doc as well) and UTF-8 decoding of the raw bytes. */
  datatype Readers = Readers(pdf: Result<string>, docx: Result<string>, utf8: Result<string>)

  /** An uploaded file: its client-side name, what secure_filename makes of it, and what the
      readers would produce from its bytes. */
  datatype Upload = Upload(filename: string, secured: string, readers: Readers)

  /** The text of the IndexError raised by `rsplit('.', 1)[1]` on a name without a dot. */
  const NoExtensionError := "list index out of range"

  function Wrapped(ext: string, r: Result<string>): (w: Result<string>)
    ensures w.Success? <==> r.Success?
    ensures w.Success? ==> w.value == r.value
    ensures w.Failure? ==> w.error == "Error extracting text from " + ext + " file: " + r.error
  {
    match r
    case Success(t) => Success(t)
    case Failure(e) => Failure("Error extracting text from " + ext + " file: " + e)
  }

  /** extract_text_from_file: dispatch on the lower-cased extension of the secured name. */
  function ExtractText(u: Upload): (r: Result<string>)
    ensures Extension(u.secured).None? ==> r == Failure(NoExtensionError)
    ensures Extension(u.secured).Some? ==>
      var ext := Lower(Extension(u.secured).value);
      && (ext == "pdf" ==> r == Wrapped(ext, u.readers.pdf))
      && (ext == "doc" || ext == "docx" ==> r == Wrapped(ext, u.readers.docx))
      && (ext == "txt" ==> r == Wrapped(ext, u.readers.utf8))
      && (ext !in AllowedExtensions ==>
            r == Failure("Error extracting text from " + ext + " file: Unsupported file type: " + ext))
  {
    match Extension(u.secured)
    case None => Failure(NoExtensionError)
    case Some(e) =>
      var ext := Lower(e);
      if ext == "pdf" then Wrapped(ext, u.readers.pdf)
      else if ext == "doc" || ext == "docx" then Wrapped(ext, u.readers.docx)
      else if ext == "txt" then Wrapped(ext, u.readers.utf8)
      else Failure("Error extracting text from " + ext + " file: Unsupported file type: " + ext)
  }

  /** When secure_filename keeps the extension, an allowed name never reaches the
      "unsupported" branch: its lower-cased extension picks one of the three readers, and
      extraction fails exactly when that reader fails. */
  lemma AllowedNamesHaveReaders(u: Upload)
    requires AllowedFile(u.filename) && Extension(u.secured) == Extension(u.filename)
    ensures var ext := Lower(Extension(u.filename).value);
      && (ext == "pdf" || ext == "doc" || ext == "docx" || ext == "txt")
      && (ext == "pdf" ==> (ExtractText(u).Failure? <==> u.readers.pdf.Failure?))
      && (ext == "doc" || ext == "docx" ==> (ExtractText(u).Failure? <==> u.readers.docx.Failure?))
      && (ext == "txt" ==> (ExtractText(u).Failure? <==> u.readers.utf8.Failure?))
  {
    var ext := Lower(Extension(u.filename).value);
    AllowedExtensionCases(ext);
  }

  /** The allowed set, spelled out. */
  lemma AllowedExtensionCases(ext: string)
    requires ext in AllowedExtensions
    ensures ext == "pdf" || ext == "doc" || ext == "docx" || ext == "txt"
  {
  }

  // ---------------------------------------------------------------- the AI reply

  /** i and j delimit the greedy match of `\{.*\}` (dot matching newlines): the first '{' and
      the last '}' of the text, the latter after the former. */
  ghost predicate GreedyBraces(text: string, i: int, j: int) {
    && 0 <= i < j < |text|
    && text[i] == '{' && text[j] == '}'
    && '{' !in text[..i] && '}' !in text[j + 1..]
  }

  /** The JSON candidate re.search finds in the reply, if any. */
  function JsonCandidate(text: string): (c: Option<string>)
    ensures c.Some? ==> exists i, j :: GreedyBraces(text, i, j) && c.value == text[i..j + 1]
  {
    match IndexOf(text, '{')
    case None => None
    case Some(i) =>
      match LastIndexOf(text, '}')
      case None => None
      case Some(j) =>
        if i < j then
          assert GreedyBraces(text, i, j);
          Some(text[i..j + 1])
        else None
  }

  /** There is no candidate exactly when no '{' is followed, anywhere later, by a '}'. */
  lemma JsonCandidateNone(text: string)
    ensures JsonCandidate(text).None? <==>
      !exists a, b :: 0 <= a < b < |text| && text[a] == '{' && text[b] == '}'
  {
    if exists a, b :: 0 <= a < b < |text| && text[a] == '{' && text[b] == '}' {
      var a, b :| 0 <= a < b < |text| && text[a] == '{' && text[b] == '}';
      assert '{' in text;
      assert '}' in text;
      var i := IndexOf(text, '{').value;
      var j := LastIndexOf(text, '}').value;
      assert i <= a && b <= j;
    }
  }

  /** How json.loads ends: a value, a JSONDecodeError, or any other exception (a RecursionError
      on very deeply nested input, say). */
  datatype Loads<J> = Loaded(value: J) | JsonDecodeError | OtherException

  /** How parse_ai_response ends: the decoded candidate, the fallback record when the
      candidate is not valid JSON, the ValueError for a reply without a candidate, or an
      exception of json.loads that its handler does not catch. */
  datatype Parsed<J> = Decoded(value: J) | Fallback(result: AnalysisResult) | NoJson | Raised

  /** parse_ai_response, with json.loads as decode. */
  function ParseAiResponse<J>(text: string, decode: string -> Loads<J>): (r: Parsed<J>)
    ensures r.NoJson? <==> JsonCandidate(text).None?
    ensures r.Decoded? <==> JsonCandidate(text).Some? && decode(JsonCandidate(text).value).Loaded?
    ensures r.Decoded? ==> r.value == decode(JsonCandidate(text).value).value
    ensures r.Fallback? <==> JsonCandidate(text).Some? && decode(JsonCandidate(text).value).JsonDecodeError?
    ensures r.Fallback? ==> r.result == FallbackResponse(text) && r.result.matchScore == Some(75)
    ensures r.Raised? <==> JsonCandidate(text).Some? && decode(JsonCandidate(text).value).OtherException?
  {
    match JsonCandidate(text)
    case None => NoJson
    case Some(c) =>
      match decode(c)
      case Loaded(v) => Decoded(v)
      case JsonDecodeError => Fallback(FallbackResponse(text))
      case OtherException => Raised
  }

  /** The longest raw reply the fallback record embeds. */
  const RawLimit: nat := 1000

  const FallbackHead := "<div class='ai-response'><h3>AI Analysis Response</h3><p>The AI provided detailed feedback but in a format that needs processing. Here's the raw response:</p><pre>"
  const FallbackTail := "...</pre></div>"

  /** The optimizedResume of the fallback record: the first 1000 characters of the reply. */
  function FallbackResumeHtml(text: string): string {
    FallbackHead + text[..Min(RawLimit, |text|)] + FallbackTail
  }

  /** Reads the embedded reply back out of a fallback resume. */
  function FallbackRaw(html: string): Option<string> {
    if |html| >= |FallbackHead| + |FallbackTail|
      && html[..|FallbackHead|] == FallbackHead
      && html[|html| - |FallbackTail|..] == FallbackTail
    then Some(html[|FallbackHead|..|html| - |FallbackTail|])
    else None
  }

  /** The fallback embeds exactly the first min(1000, |reply|) characters of the reply. */
  lemma FallbackEmbedsPrefix(text: string)
    ensures FallbackRaw(FallbackResumeHtml(text)).Some?
    ensures var raw := FallbackRaw(FallbackResumeHtml(text)).value;
      && |raw| <= RawLimit
      && raw <= text
      && raw == text[..Min(RawLimit, |text|)]
      && (|text| <= RawLimit ==> raw == text)
      && (|text| > RawLimit ==> |raw| == RawLimit)
  {
    var html := FallbackResumeHtml(text);
    var raw := text[..Min(RawLimit, |text|)];
    assert html[..|FallbackHead|] == FallbackHead;
    assert html[|html| - |FallbackTail|..] == FallbackTail;
    assert html[|FallbackHead|..|html| - |FallbackTail|] == raw;
  }

  const FallbackOverall := "Analysis completed but response format needs adjustment."
  const FallbackStrengths: seq<string> := [
    "Resume contains relevant experience",
    "Educational background is appropriate",
    "Skills section includes required technologies"]
  const FallbackConcerns: seq<string> := [
    "Some specific requirements may need more emphasis",
    "Consider adding more quantifiable achievements"]
  const FallbackMissing: seq<string> := [
    "Specific certifications mentioned in job description",
    "Industry-specific tools or technologies",
    "Leadership or management experience"]
  const FallbackWeak: seq<string> := [
    "Quantifiable achievements",
    "Industry-specific keywords",
    "Professional development activities"]
  const FallbackRecommendations: seq<string> := [
    "Add specific keywords from the job description naturally throughout your resume",
    "Include quantifiable achievements and metrics where possible",
    "Highlight relevant certifications or training",
    "Emphasize experience with technologies mentioned in the job posting",
    "Consider adding a professional summary section at the top"]

  /** create_fallback_response. */
  function FallbackResponse(text: string): (r: AnalysisResult)
    ensures r.matchScore == Some(75)
    ensures r.optimizedResume == Some(FallbackResumeHtml(text))
  {
    Complete(75, FallbackOverall, FallbackStrengths, FallbackConcerns, FallbackMissing,
      FallbackWeak, FallbackRecommendations, FallbackResumeHtml(text))
  }

  // ---------------------------------------------------------------- the demo result

  const TechKeywords: seq<string> := ["python", "javascript", "react", "node", "sql", "aws", "docker", "git"]

  /** kw occurs in both texts. */
  predicate Shared(kw: string, a: string, b: string) {
    Contains(kw, a) && Contains(kw, b)
  }

  /** No entry of xs appears twice. */
  ghost predicate Distinct<T>(xs: seq<T>) {
    forall k, m :: 0 <= k < m < |xs| ==> xs[k] != xs[m]
  }

  /** found is the entries of kws at the strictly increasing positions idx, and those are
      exactly the positions whose keyword occurs in both texts: the list comprehension
      `[kw for kw in kws if kw in a and kw in b]`, described without computing it. */
  ghost predicate FilterAt(found: seq<string>, kws: seq<string>, a: string, b: string, idx: seq<int>) {
    && |idx| == |found|
    && (forall k :: 0 <= k < |idx| ==> 0 <= idx[k] < |kws| && found[k] == kws[idx[k]])
    && (forall k, m :: 0 <= k < m < |idx| ==> idx[k] < idx[m])
    && (forall i :: 0 <= i < |kws| ==> (Shared(kws[i], a, b) <==> i in idx))
  }

  /** The keywords of kws occurring in both (already lower-cased) texts, in list order. */
  function Matching(kws: seq<string>, a: string, b: string): (found: seq<string>)
    ensures |found| <= |kws|
    ensures forall kw :: kw in found <==> kw in kws && Shared(kw, a, b)
  {
    if kws == [] then []
    else
      var rest := Matching(kws[1..], a, b);
      if Shared(kws[0], a, b) then [kws[0]] + rest else rest
  }

  /** Every position moved one place right. */
  function Shift(idx: seq<int>): (r: seq<int>)
    ensures |r| == |idx|
    ensures forall k :: 0 <= k < |idx| ==> r[k] == idx[k] + 1
  {
    seq(|idx|, k requires 0 <= k < |idx| => idx[k] + 1)
  }

  /** Matching keeps exactly the shared keywords, in the order of kws, once per position. */
  lemma {:induction false} MatchingFilters(kws: seq<string>, a: string, b: string)
    ensures exists idx :: FilterAt(Matching(kws, a, b), kws, a, b, idx)
    decreases |kws|
  {
    if kws == [] {
      assert FilterAt(Matching(kws, a, b), kws, a, b, []);
    } else {
      var rest := Matching(kws[1..], a, b);
      MatchingFilters(kws[1..], a, b);
      var idx' :| FilterAt(rest, kws[1..], a, b, idx');
      FilterAtTail(kws, a, b, rest, idx');
      if Shared(kws[0], a, b) {
        FilterAtKeep(kws, a, b, rest, Shift(idx'));
        assert FilterAt(Matching(kws, a, b), kws, a, b, [0] + Shift(idx'));
      } else {
        FilterAtDrop(kws, a, b, rest, Shift(idx'));
        assert FilterAt(Matching(kws, a, b), kws, a, b, Shift(idx'));
      }
    }
  }

  /** A position is in the shifted positions exactly when its predecessor is in the original. */
  lemma ShiftMembers(idx: seq<int>, i: int)
    ensures i in Shift(idx) <==> i - 1 in idx
  {
    if i - 1 in idx {
      var k :| 0 <= k < |idx| && idx[k] == i - 1;
      assert Shift(idx)[k] == i;
    }
  }

  /** rest is the entries of kws at the strictly increasing positions pos, all past the head,
      and those are exactly the positions past the head whose keyword occurs in both texts. */
  ghost predicate FilterPastHead(rest: seq<string>, kws: seq<string>, a: string, b: string, pos: seq<int>) {
    && |pos| == |rest|
    && (forall k :: 0 <= k < |pos| ==> 1 <= pos[k] < |kws| && rest[k] == kws[pos[k]])
    && (forall k, m :: 0 <= k < m < |pos| ==> pos[k] < pos[m])
    && (forall i :: 1 <= i < |kws| ==> (Shared(kws[i], a, b) <==> i in pos))
  }

  /** The positions of a filtered tail, shifted one place right, describe the same filter on
      the whole list past its head. */
  lemma FilterAtTail(kws: seq<string>, a: string, b: string, rest: seq<string>, idx: seq<int>)
    requires |kws| >= 1 && FilterAt(rest, kws[1..], a, b, idx)
    ensures FilterPastHead(rest, kws, a, b, Shift(idx))
  {
    var tail := kws[1..];
    forall i | 1 <= i < |kws|
      ensures Shared(kws[i], a, b) <==> i in Shift(idx)
    {
      ShiftMembers(idx, i);
      assert kws[i] == tail[i - 1];
    }
    forall k | 0 <= k < |idx|
      ensures 1 <= Shift(idx)[k] < |kws| && rest[k] == kws[Shift(idx)[k]]
    {
      assert rest[k] == tail[idx[k]];
    }
  }

  /** The step of MatchingFilters when the head of kws is shared: it is kept in front. */
  lemma FilterAtKeep(kws: seq<string>, a: string, b: string, rest: seq<string>, pos: seq<int>)
    requires |kws| >= 1 && FilterPastHead(rest, kws, a, b, pos) && Shared(kws[0], a, b)
    ensures FilterAt([kws[0]] + rest, kws, a, b, [0] + pos)
  {
    var found, pos' := [kws[0]] + rest, [0] + pos;
    forall k | 0 <= k < |pos'|
      ensures 0 <= pos'[k] < |kws| && found[k] == kws[pos'[k]]
    {
      if k > 0 {
        assert pos'[k] == pos[k - 1] && found[k] == rest[k - 1];
      }
    }
    forall k, m | 0 <= k < m < |pos'|
      ensures pos'[k] < pos'[m]
    {
      assert pos'[m] == pos[m - 1];
      if k > 0 {
        assert pos'[k] == pos[k - 1];
      }
    }
    forall i | 0 <= i < |kws|
      ensures Shared(kws[i], a, b) <==> i in pos'
    {
      if i == 0 {
        assert pos'[0] == 0;
      } else {
        assert i in pos' <==> i in pos;
      }
    }
  }

  /** The step of MatchingFilters when the head of kws is not shared: it is dropped. */
  lemma FilterAtDrop(kws: seq<string>, a: string, b: string, rest: seq<string>, pos: seq<int>)
    requires |kws| >= 1 && FilterPastHead(rest, kws, a, b, pos) && !Shared(kws[0], a, b)
    ensures FilterAt(rest, kws, a, b, pos)
  {
    assert 0 !in pos;
  }

  /** A keyword list without repetitions yields a match list without repetitions. */
  lemma MatchingDistinct(kws: seq<string>, a: string, b: string)
    requires Distinct(kws)
    ensures Distinct(Matching(kws, a, b))
  {
    MatchingFilters(kws, a, b);
    var idx :| FilterAt(Matching(kws, a, b), kws, a, b, idx);
  }

  /** No keyword occurring in the first text means no match. */
  lemma {:induction false} MatchingNone(kws: seq<string>, a: string, b: string)
    requires forall kw :: kw in kws ==> !Contains(kw, a)
    ensures Matching(kws, a, b) == []
  {
    if kws != [] {
      assert kws[0] in kws;
      assert forall kw :: kw in kws[1..] ==> kw in kws;
      MatchingNone(kws[1..], a, b);
    }
  }

  /** The found_keywords list: the technical keywords occurring in both lower-cased texts. */
  function FoundKeywords(resume: string, job: string): (found: seq<string>)
    ensures |found| <= |TechKeywords|
    ensures forall kw :: kw in found <==>
      kw in TechKeywords && Contains(kw, Lower(resume)) && Contains(kw, Lower(job))
  {
    Matching(TechKeywords, Lower(resume), Lower(job))
  }

  /** found_keywords lists the shared keywords in the order of tech_keywords, each once; so its
      length, and with it the demo score, counts the shared keywords. */
  lemma FoundKeywordsInOrder(resume: string, job: string)
    ensures exists idx :: FilterAt(FoundKeywords(resume, job), TechKeywords, Lower(resume), Lower(job), idx)
    ensures Distinct(FoundKeywords(resume, job))
  {
    MatchingFilters(TechKeywords, Lower(resume), Lower(job));
    var idx :| FilterAt(Matching(TechKeywords, Lower(resume), Lower(job)), TechKeywords, Lower(resume), Lower(job), idx);
    assert FilterAt(FoundKeywords(resume, job), TechKeywords, Lower(resume), Lower(job), idx);
    assert Distinct(TechKeywords);
    MatchingDistinct(TechKeywords, Lower(resume), Lower(job));
  }

  /** The demo score: min(95, max(60, 10 * matches + 50)). */
  function MockScore(matches: nat): (score: int)
    ensures 60 <= score <= 95
    ensures matches == 0 ==> score == 60
    ensures 1 <= matches <= 4 ==> score == 10 * matches + 50
    ensures matches >= 5 ==> score == 95
  {
    var raw := matches * 10 + 50;
    var floored := if raw < 60 then 60 else raw;
    if floored < 95 then floored else 95
  }

  /** A resume sharing no technical keyword with the job description scores 60 in the demo
      record, and its summary falls back to "software development". */
  lemma NoSharedKeywordScores60(resume: string, job: string)
    requires forall kw :: kw in TechKeywords ==> !Contains(kw, Lower(resume))
    ensures FoundKeywords(resume, job) == []
    ensures MockAnalysisResult(resume, job).matchScore == Some(60)
    ensures DemoResumeFields(resume, FoundKeywords(resume, job)).summarySkills == "software development"
  {
    MatchingNone(TechKeywords, Lower(resume), Lower(job));
  }

  const DefaultName := "Professional Candidate"
  const DefaultEmail := "candidate@email.com"
  const DefaultPhone := "(555) 123-4567"

  /** A line that can be the name: non-empty and shorter than 50 once stripped, without '@'. */
  predicate IsNameLine(line: string) {
    Strip(line) != "" && |Strip(line)| < 50 && '@' !in line
  }

  /** A line that can be the e-mail address: it has an '@' and a '.'. */
  predicate IsEmailLine(line: string) {
    '@' in line && '.' in line
  }

  /** The stripped first name-like line of lines, or the default name. */
  function FirstName(lines: seq<string>): (name: string)
    ensures '@' !in name && |name| < 50
  {
    if lines == [] then DefaultName
    else if IsNameLine(lines[0]) then
      TrimWithChars(lines[0], PyWhitespace);
      Strip(lines[0])
    else FirstName(lines[1..])
  }

  /** Without a name-like line, FirstName is the default. */
  lemma {:induction false} FirstNameDefault(lines: seq<string>)
    requires forall j :: 0 <= j < |lines| ==> !IsNameLine(lines[j])
    ensures FirstName(lines) == DefaultName
  {
    if lines != [] {
      assert !IsNameLine(lines[0]);
      FirstNameDefault(lines[1..]);
    }
  }

  /** FirstName picks the first line that looks like a name. */
  lemma {:induction false} FirstNameIsFirst(lines: seq<string>, i: nat)
    requires i < |lines| && IsNameLine(lines[i])
    requires forall j :: 0 <= j < i ==> !IsNameLine(lines[j])
    ensures FirstName(lines) == Strip(lines[i])
  {
    if i > 0 {
      assert !IsNameLine(lines[0]);
      assert lines[1..][i - 1] == lines[i];
      FirstNameIsFirst(lines[1..], i - 1);
    }
  }

  /** The name of the demo resume: the stripped first name-like line among the first five. */
  function ExtractName(resume: string): (name: string)
    ensures '@' !in name && |name| < 50
  {
    var lines := Split(resume, '\n');
    FirstName(lines[..Min(5, |lines|)])
  }

  /** The name is the first of the resume's first five lines that looks like one, stripped. */
  lemma ExtractNameIsFirst(resume: string, i: nat)
    requires var lines := Split(resume, '\n');
      && i < |lines| && i < 5 && IsNameLine(lines[i])
      && forall j :: 0 <= j < i ==> !IsNameLine(lines[j])
    ensures ExtractName(resume) == Strip(Split(resume, '\n')[i])
  {
    var lines := Split(resume, '\n');
    var head := lines[..Min(5, |lines|)];
    assert head[i] == lines[i];
    forall j | 0 <= j < i
      ensures !IsNameLine(head[j])
    {
      assert head[j] == lines[j];
    }
    FirstNameIsFirst(head, i);
  }

  /** The stripped first line with an '@' and a '.', or the default address. */
  function FirstEmail(lines: seq<string>): (email: string)
    ensures '@' in email && '.' in email
  {
    if lines == [] then
      assert DefaultEmail[9] == '@' && DefaultEmail[15] == '.';
      DefaultEmail
    else if IsEmailLine(lines[0]) then
      assert '@' !in PyWhitespace && '.' !in PyWhitespace;
      TrimWithChars(lines[0], PyWhitespace);
      Strip(lines[0])
    else FirstEmail(lines[1..])
  }

  /** Without a line holding an '@' and a '.', FirstEmail is the default address. */
  lemma {:induction false} FirstEmailDefault(lines: seq<string>)
    requires forall j :: 0 <= j < |lines| ==> !IsEmailLine(lines[j])
    ensures FirstEmail(lines) == DefaultEmail
  {
    if lines != [] {
      assert !IsEmailLine(lines[0]);
      FirstEmailDefault(lines[1..]);
    }
  }

  /** FirstEmail picks the first line holding an '@' and a '.'. */
  lemma {:induction false} FirstEmailIsFirst(lines: seq<string>, i: nat)
    requires i < |lines| && IsEmailLine(lines[i])
    requires forall j :: 0 <= j < i ==> !IsEmailLine(lines[j])
    ensures FirstEmail(lines) == Strip(lines[i])
  {
    if i > 0 {
      assert !IsEmailLine(lines[0]);
      assert lines[1..][i - 1] == lines[i];
      FirstEmailIsFirst(lines[1..], i - 1);
    }
  }

  /** The e-mail of the demo resume: the stripped first line with an '@' and a '.'. */
  function ExtractEmail(resume: string): (email: string)
    ensures '@' in email && '.' in email
  {
    FirstEmail(Split(resume, '\n'))
  }

  /** The values generate_optimized_resume_html substitutes into its fixed template. */
  datatype DemoResume = DemoResume(
    name: string, email: string, phone: string, summarySkills: string, relevantSkills: string)

  function DemoResumeFields(resume: string, found: seq<string>): (d: DemoResume)
    ensures d.name == ExtractName(resume) && d.email == ExtractEmail(resume) && d.phone == DefaultPhone
    ensures found == [] ==> d.summarySkills == "software development"
    ensures found != [] ==> d.summarySkills == Join(found[..Min(3, |found|)], ", ")
  {
    DemoResume(
      ExtractName(resume),
      ExtractEmail(resume),
      DefaultPhone,
      if found != [] then Join(found[..Min(3, |found|)], ", ") else "software development",
      if found != [] then Join(found, ", ") else "Software Development, Problem Solving, Team Collaboration")
  }

  /** The stretches of fixed text of generate_optimized_resume_html, around the substituted
      name, e-mail, phone and the two keyword lists. */
  datatype TemplatePart = Head | AfterName | AfterEmail | AfterPhone | AfterSummary | Tail

  function TemplateText(part: TemplatePart): string {
    match part
    case Head => "\n    <div class=\"resume-section\">\n        <h3>"
    case AfterName => "</h3>\n        <p>Software Engineer | Full Stack Developer</p>\n        <p>Email: "
    case AfterEmail => " | Phone: "
    case AfterPhone => " | LinkedIn: linkedin.com/in/profile</p>\n    </div>\n    \n    <div class=\"resume-section\">\n        <h4>Professional Summary</h4>\n        <p>Experienced professional with strong background in "
    case AfterSummary => ". \n        Proven track record of delivering high-quality solutions and collaborating effectively with cross-functional teams. \n        Passionate about leveraging technology to solve complex business problems and drive innovation.</p>\n    </div>\n    \n    <div class=\"resume-section\">\n        <h4>Technical Skills</h4>\n        <ul>\n            <li><strong>Programming Languages:</strong> Python, JavaScript, Java, C++</li>\n            <li><strong>Web Technologies:</strong> React, Node.js, HTML5, CSS3, RESTful APIs</li>\n            <li><strong>Databases:</strong> MySQL, PostgreSQL, MongoDB</li>\n            <li><strong>Tools & Technologies:</strong> Git, Docker, AWS, Jenkins, Agile/Scrum</li>\n            <li><strong>Relevant Skills:</strong> "
    case Tail => "</li>\n        </ul>\n    </div>\n    \n    <div class=\"resume-section\">\n        <h4>Professional Experience</h4>\n        <div class=\"job\">\n            <h5>Senior Software Engineer - Tech Solutions Inc. (2021-Present)</h5>\n            <ul>\n                <li>Led development of customer-facing applications serving 50,000+ users daily</li>\n                <li>Improved system performance by 35% through optimization and best practices</li>\n                <li>Collaborated with cross-functional teams to deliver projects on time and within budget</li>\n                <li>Mentored junior developers and conducted comprehensive code reviews</li>\n            </ul>\n        </div>\n        \n        <div class=\"job\">\n            <h5>Software Engineer - Digital Innovations LLC (2019-2021)</h5>\n            <ul>\n                <li>Developed and maintained multiple web applications using modern frameworks</li>\n                <li>Implemented responsive designs and ensured cross-browser compatibility</li>\n                <li>Integrated third-party APIs and payment processing systems</li>\n                <li>Participated in agile development processes and sprint planning</li>\n            </ul>\n        </div>\n    </div>\n    \n    <div class=\"resume-section\">\n        <h4>Education</h4>\n        <p><strong>Bachelor of Science in Computer Science</strong><br>\n        University of Technology (2015-2019)<br>\n        Relevant Coursework: Data Structures, Algorithms, Software Engineering, Database Systems</p>\n    </div>\n    \n    <div class=\"resume-section\">\n        <h4>Projects & Achievements</h4>\n        <ul>\n            <li>Developed a full-stack web application that increased user engagement by 40%</li>\n            <li>Contributed to open-source projects with over 1,000 GitHub stars</li>\n            <li>Completed relevant certifications in cloud computing and modern web development</li>\n        </ul>\n    </div>\n    "
  }

  /** generate_optimized_resume_html: the fixed template with the extracted values filled in. */
  function DemoResumeHtml(d: DemoResume): string {
    TemplateText(Head) + d.name + TemplateText(AfterName) + d.email
      + TemplateText(AfterEmail) + d.phone + TemplateText(AfterPhone)
      + d.summarySkills + TemplateText(AfterSummary) + d.relevantSkills + TemplateText(Tail)
  }

  const MockStrengths: seq<string> := [
    "Relevant technical background with matching skills",
    "Experience aligns well with job requirements",
    "Educational background supports the role requirements"]
  const MockConcerns: seq<string> := [
    "Some specific tools mentioned in job description may need more emphasis",
    "Consider highlighting more quantifiable achievements"]
  const MockMissing: seq<string> := [
    "Specific certifications mentioned in job posting",
    "Advanced experience with certain technologies",
    "Industry-specific domain knowledge"]
  const MockWeak: seq<string> := [
    "Leadership and team management experience",
    "Public speaking and presentation skills",
    "Cross-functional collaboration experience"]
  const MockRecommendations: seq<string> := [
    "Incorporate more keywords from the job description naturally throughout your resume",
    "Add specific metrics and quantifiable achievements to demonstrate impact",
    "Highlight any relevant certifications or professional development",
    "Emphasize experience with the specific technologies mentioned in the job posting",
    "Consider adding a professional summary section that directly addresses the role requirements",
    "Include any relevant project work or side projects that demonstrate applicable skills"]

  const MockSummaryHead := "Good candidate with "
  const MockSummaryTail := " matching technical skills. Strong potential for this role."

  /** create_mock_analysis_result. */
  function MockAnalysisResult(resume: string, job: string): (r: AnalysisResult)
    ensures r.matchScore == Some(MockScore(|FoundKeywords(resume, job)|))
    ensures 60 <= r.matchScore.value <= 95
  {
    var found := FoundKeywords(resume, job);
    Complete(
      MockScore(|found|),
      MockSummaryHead + NatToString(|found|) + MockSummaryTail,
      MockStrengths, MockConcerns, MockMissing, MockWeak, MockRecommendations,
      DemoResumeHtml(DemoResumeFields(resume, found)))
  }

  // ---------------------------------------------------------------- the request handler

  /** The multipart request: uploaded files and form fields by name. */
  datatype Request = Request(files: map<string, Upload>, form: map<string, string>)

  /** A successful body: the decoded AI JSON as it is, the fallback record built from the AI's
      reply, or the demo record create_mock_analysis_result builds for the extracted resume text
      and the job description (its fields are MockAnalysisResult(resume, job)). */
  datatype Payload<J> = AiJson(json: J) | Record(result: AnalysisResult) | Demo(resume: string, job: string)

  /** The handler's reply: 200 with a payload, or 400 with an error message. */
  datatype Response<J> = Ok(payload: Payload<J>) | BadRequest(message: string)

  const MinJobDescription: nat := 50
  const MinResumeText: nat := 100

  /** Why analyze_resume refuses a request. */
  datatype Reason =
    | NoResume | NoJob | NoFile | FileType | ShortJob | ExtractionFailed(error: string) | ShortResume

  /** One validation step of analyze_resume: whether it rejects the request, and why. */
  datatype Check = Check(fails: bool, reason: Reason)

  /** The position of the first failing check, if any. */
  function FirstFailing(checks: seq<Check>): (r: Option<nat>)
    ensures r.None? <==> forall i :: 0 <= i < |checks| ==> !checks[i].fails
    ensures r.Some? ==> r.value < |checks| && checks[r.value].fails
    ensures r.Some? ==> forall j :: 0 <= j < r.value ==> !checks[j].fails
  {
    if checks == [] then None
    else if checks[0].fails then Some(0)
    else
      match FirstFailing(checks[1..])
      case None => None
      case Some(i) => Some(i + 1)
  }

  const NoResumeMessage := "No resume file provided"
  const NoJobMessage := "No job description provided"
  const NoFileMessage := "No file selected"
  const FileTypeMessage := "File type not allowed. Please upload PDF, DOC, DOCX, or TXT files."
  const ShortJobMessage := "Job description is too short. Please provide a detailed job description."
  const ShortResumeMessage := "Resume content is too short or could not be extracted properly."
  const ExtractionPrefix := "Error processing resume file: "

  /** The error text of the 400 reply for a refusal. */
  function Message(reason: Reason): string {
    match reason
    case NoResume => NoResumeMessage
    case NoJob => NoJobMessage
    case NoFile => NoFileMessage
    case FileType => FileTypeMessage
    case ShortJob => ShortJobMessage
    case ExtractionFailed(e) => ExtractionPrefix + e
    case ShortResume => ShortResumeMessage
  }

  /** What the checks of analyze_resume look at, each read off the request on its own: whether
      the resume and job description fields are there, whether the upload's name is empty or
      allowed, whether the stripped job description is under 50 characters, the extraction's
      outcome, and whether the stripped extracted text is under 100 characters. */
  datatype Inspection = Inspection(
    hasFile: bool, hasJob: bool, emptyName: bool, allowed: bool, shortJob: bool,
    extracted: Result<string>, shortResume: bool)

  function Inspect(req: Request): Inspection {
    var hasFile := "resume" in req.files;
    var hasJob := "jobDescription" in req.form;
    var extracted := if hasFile then ExtractText(req.files["resume"]) else Failure("");
    Inspection(
      hasFile, hasJob,
      hasFile && req.files["resume"].filename == "",
      hasFile && AllowedFile(req.files["resume"].filename),
      hasJob && |Strip(req.form["jobDescription"])| < MinJobDescription,
      extracted,
      extracted.Success? && |Strip(extracted.value)| < MinResumeText)
  }

  /** The seven checks in the order analyze_resume makes them: the resume field, the job
      description field, an empty file name, the extension allow-list, a short job description,
      an extraction error, and a short resume text. Each check is stated on its own, so it holds
      no matter whether an earlier one failed. */
  function ChecksOf(v: Inspection): (checks: seq<Check>)
    ensures |checks| == 7
  {
    [ Check(!v.hasFile, NoResume),
      Check(!v.hasJob, NoJob),
      Check(v.emptyName, NoFile),
      Check(v.hasFile && !v.allowed, FileType),
      Check(v.shortJob, ShortJob),
      Check(v.hasFile && v.extracted.Failure?, ExtractionFailed(if v.extracted.Failure? then v.extracted.error else "")),
      Check(v.hasFile && v.shortResume, ShortResume) ]
  }

  /** The checks of analyze_resume on a request. */
  function Checks(req: Request): (checks: seq<Check>)
    ensures |checks| == 7
  {
    ChecksOf(Inspect(req))
  }

  /** The body of a request that passed validation: the AI's decoded JSON, the fallback record
      when its candidate is not valid JSON, and the demo record for the resume text and the job
      description when the call fails, the reply holds no candidate, or json.loads raises
      anything but JSONDecodeError: all three reach the handler's `except Exception`. */
  function SuccessPayload<J>(resume: string, job: string, ai: Result<string>, decode: string -> Loads<J>): (p: Payload<J>)
    ensures p.AiJson? <==> ai.Success? && ParseAiResponse(ai.value, decode).Decoded?
    ensures p.AiJson? ==> p.json == ParseAiResponse(ai.value, decode).value
    ensures ai.Success? && ParseAiResponse(ai.value, decode).Fallback? ==> p == Record(FallbackResponse(ai.value))
    ensures ai.Failure? || ParseAiResponse(ai.value, decode).NoJson? || ParseAiResponse(ai.value, decode).Raised? ==>
      p == Demo(resume, job)
  {
    match ai
    case Failure(_) => Demo(resume, job)
    case Success(reply) =>
      match ParseAiResponse(reply, decode)
      case Decoded(v) => AiJson(v)
      case Fallback(f) => Record(f)
      case NoJson => Demo(resume, job)
      case Raised => Demo(resume, job)
  }

  /** analyze_resume, with the AI call's outcome and json.loads as inputs: a 400 with the first
      failing check's message, otherwise a 200 whose body comes from the AI reply or, failing
      that, the demo record for the extracted text and the job description. */
  function AnalyzeResume<J>(req: Request, ai: Result<string>, decode: string -> Loads<J>): (r: Response<J>)
    ensures r.BadRequest? <==> exists i :: 0 <= i < 7 && Checks(req)[i].fails
    ensures r.Ok? ==> (
      && "resume" in req.files && "jobDescription" in req.form
      && ExtractText(req.files["resume"]).Success?
      && r.payload == SuccessPayload(ExtractText(req.files["resume"]).value, req.form["jobDescription"], ai, decode))
  {
    var checks := Checks(req);
    match FirstFailing(checks)
    case Some(i) => BadRequest(Message(checks[i].reason))
    case None =>
      assert !checks[0].fails && !checks[1].fails && !checks[5].fails;
      Ok(SuccessPayload(ExtractText(req.files["resume"]).value, req.form["jobDescription"], ai, decode))
  }

  /** The message of a refusal is that of the first failing check. */
  lemma AnalyzeReportsFirstFailure<J>(req: Request, ai: Result<string>, decode: string -> Loads<J>, i: nat)
    requires i < 7 && Checks(req)[i].fails
    requires forall j :: 0 <= j < i ==> !Checks(req)[j].fails
    ensures AnalyzeResume(req, ai, decode) == BadRequest(Message(Checks(req)[i].reason))
  {
    var m := FirstFailing(Checks(req));
    assert m.Some? && m.value == i;
  }

  /** The handler's chain of early returns: the first condition met in its order, each looked at
      only once the earlier ones have passed; None when the request gets through. */
  function RefusalOf(v: Inspection): Option<Reason> {
    if !v.hasFile then Some(NoResume)
    else if !v.hasJob then Some(NoJob)
    else if v.emptyName then Some(NoFile)
    else if !v.allowed then Some(FileType)
    else if v.shortJob then Some(ShortJob)
    else
      match v.extracted
      case Failure(e) => Some(ExtractionFailed(e))
      case Success(_) => if v.shortResume then Some(ShortResume) else None
  }

  /** The refusal analyze_resume answers a request with, if any. */
  function Refusal(req: Request): Option<Reason> {
    RefusalOf(Inspect(req))
  }

  /** The first failing check is the failing one with no failing check before it. */
  lemma FirstFailingIs(checks: seq<Check>, i: nat)
    requires i < |checks| && checks[i].fails
    requires forall j :: 0 <= j < i ==> !checks[j].fails
    ensures FirstFailing(checks) == Some(i)
  {
    var m := FirstFailing(checks);
    assert m.Some? && m.value <= i;
  }

  /** Of seven checks whose first six pass, the last decides. */
  lemma LastCheck(checks: seq<Check>)
    requires |checks| == 7
    requires !checks[0].fails && !checks[1].fails && !checks[2].fails
    requires !checks[3].fails && !checks[4].fails && !checks[5].fails
    ensures FirstFailing(checks) == if checks[6].fails then Some(6) else None
  {
    forall k | 0 <= k < 6
      ensures !checks[k].fails
    {
      if k < 3 {
        assert k == 0 || k == 1 || k == 2;
      } else {
        assert k == 3 || k == 4 || k == 5;
      }
    }
    if checks[6].fails {
      FirstFailingIs(checks, 6);
    }
  }

  /** Whatever the inspected facts, the check list fails exactly when the chain of early returns
      refuses, and its first failing check carries the chain's reason. */
  lemma RefusalOfIsFirstFailing(v: Inspection)
    ensures RefusalOf(v).Some? <==> FirstFailing(ChecksOf(v)).Some?
    ensures RefusalOf(v).Some? ==> RefusalOf(v).value == ChecksOf(v)[FirstFailing(ChecksOf(v)).value].reason
  {
    var checks := ChecksOf(v);
    if !v.hasFile {
      FirstFailingIs(checks, 0);
    } else if !v.hasJob {
      FirstFailingIs(checks, 1);
    } else if v.emptyName {
      FirstFailingIs(checks, 2);
    } else if !v.allowed {
      FirstFailingIs(checks, 3);
    } else if v.shortJob {
      FirstFailingIs(checks, 4);
    } else if v.extracted.Failure? {
      FirstFailingIs(checks, 5);
    } else {
      LastCheck(checks);
    }
  }

  /** The check list fails exactly when the chain of early returns refuses, and its first
      failing check carries the chain's reason. */
  lemma RefusalIsFirstFailing(req: Request)
    ensures Refusal(req).Some? <==> FirstFailing(Checks(req)).Some?
    ensures Refusal(req).Some? ==> Refusal(req).value == Checks(req)[FirstFailing(Checks(req)).value].reason
  {
    RefusalOfIsFirstFailing(Inspect(req));
  }

  /** The check list answers exactly as the handler's chain of early returns: a 400 with the
      chain's message when some condition is met, a 200 otherwise. */
  lemma AnalyzeResumeRefusals<J>(req: Request, ai: Result<string>, decode: string -> Loads<J>)
    ensures AnalyzeResume(req, ai, decode).BadRequest? <==> Refusal(req).Some?
    ensures Refusal(req).Some? ==> AnalyzeResume(req, ai, decode) == BadRequest(Message(Refusal(req).value))
  {
    RefusalIsFirstFailing(req);
  }

  /** Every record the server builds itself scores between 60 and 95, and the AI's JSON is
      passed through only when the reply held a candidate that decoded. */
  lemma ServerScores<J>(req: Request, ai: Result<string>, decode: string -> Loads<J>)
    ensures var r := AnalyzeResume(req, ai, decode);
      r.Ok? && r.payload.Record? ==> r.payload.result.matchScore.Some? && 60 <= r.payload.result.matchScore.value <= 95
    ensures var r := AnalyzeResume(req, ai, decode);
      r.Ok? && r.payload.Demo? ==> 60 <= MockAnalysisResult(r.payload.resume, r.payload.job).matchScore.value <= 95
    ensures var r := AnalyzeResume(req, ai, decode);
      r.Ok? && r.payload.AiJson? ==> ai.Success? && ParseAiResponse(ai.value, decode).Decoded?
  {
  }

  /** A short job description is the first failing check once the four file checks pass. */
  lemma ShortJobFirst(v: Inspection)
    requires v.hasFile && v.hasJob && !v.emptyName && v.allowed && v.shortJob
    ensures FirstFailing(ChecksOf(v)) == Some(4)
  {
    FirstFailingIs(ChecksOf(v), 4);
  }

  /** Of a request whose file passes the earlier checks, a job description that strips to 49
      characters is the first failing check, and one of 50 or more does not fail. */
  lemma JobDescriptionBoundary(req: Request)
    requires "resume" in req.files && "jobDescription" in req.form
    requires req.files["resume"].filename != "" && AllowedFile(req.files["resume"].filename)
    ensures |Strip(req.form["jobDescription"])| == 49 ==> FirstFailing(Checks(req)) == Some(4)
    ensures |Strip(req.form["jobDescription"])| >= 50 ==> !Checks(req)[4].fails
  {
    if |Strip(req.form["jobDescription"])| == 49 {
      ShortJobFirst(Inspect(req));
    }
  }
}
