/** The client's result renderer: each section of an analysis result becomes an HTML string,
    with a placeholder paragraph when the section is missing or empty. The markup is the
    source's template text, indentation included. */
module Render {
  import opened Wrappers
  import opened Text
  import opened Results

  /** The opening of every rendered section, and that of the placeholders. */
  const Div := "<div"
  const Para := "<p>"

  const NotAvailable := Para + "Analysis not available.</p>"
  const NoGaps := Para + "No significant skill gaps identified.</p>"
  const NoRecommendations := Para + "No specific recommendations available.</p>"
  const PreviewFailed := Para + "Optimized resume generation failed. Please try again.</p>"

  const StrengthsOpen := Div + " class=\"strengths\">\n            <h4><i class=\"fas fa-check-circle\" style=\"color: #10b981;\"></i> Strengths</h4>\n            <ul>"
  const ConcernsOpen := Div + " class=\"concerns\">\n            <h4><i class=\"fas fa-exclamation-triangle\" style=\"color: #f59e0b;\"></i> Areas of Concern</h4>\n            <ul>"
  const MissingOpen := Div + " class=\"missing-skills\">\n            <h4><i class=\"fas fa-times-circle\" style=\"color: #ef4444;\"></i> Missing Skills</h4>\n            <ul>"
  const WeakOpen := Div + " class=\"weak-skills\">\n            <h4><i class=\"fas fa-arrow-up\" style=\"color: #f59e0b;\"></i> Areas for Improvement</h4>\n            <ul>"
  const ListClose := "</ul></div>"
  const RecListOpen := Div + " class=\"recommendations-list\">"
  const RecListClose := "</div>"
  const PreviewHead := Div + " class=\"resume-content\">\n        <div class=\"resume-header\">\n            <h3>Your Optimized ATS Resume</h3>\n            <p>This resume has been optimized for Applicant Tracking Systems and tailored to match the job requirements.</p>\n        </div>\n        <div class=\"resume-body\">\n            "
  const PreviewTail := "\n        </div>\n    </div>"

  /** The score shown when the result carries none: `results.matchScore || 75`. */
  const DefaultScore := 75

  // ---------------------------------------------------------------- accumulation

  /** The pieces written one after another. */
  function Concat(parts: seq<string>): string {
    if parts == [] then "" else parts[0] + Concat(parts[1..])
  }

  /** `parts.forEach(p => html += p)`: appends the pieces to html, first to last. */
  function AppendEach(html: string, parts: seq<string>): (r: string)
    ensures r == html + Concat(parts)
    decreases |parts|
  {
    if parts == [] then html
    else
      assert html + parts[0] + Concat(parts[1..]) == html + Concat(parts);
      AppendEach(html + parts[0], parts[1..])
  }

  /** The JavaScript rendering of a possibly undefined string inside a template. */
  function JsText(s: Option<string>): string {
    s.GetOr("undefined")
  }

  // ---------------------------------------------------------------- suitability and skill gaps

  /** One bullet per entry, in order. */
  function Bullets(xs: seq<string>): (items: seq<string>)
    ensures |items| == |xs|
    ensures forall k :: 0 <= k < |xs| ==> items[k] == "<li>" + xs[k] + "</li>"
  {
    seq(|xs|, k requires 0 <= k < |xs| => "<li>" + xs[k] + "</li>")
  }

  /** A headed bullet list when the entries are present and non-empty, and nothing otherwise. */
  function ListSection(open: string, xs: Option<seq<string>>): (r: string)
    ensures !HasEntries(xs) ==> r == ""
    ensures HasEntries(xs) ==> r == open + Concat(Bullets(xs.value)) + ListClose
  {
    if xs.Some? && |xs.value| > 0 then AppendEach(open, Bullets(xs.value)) + ListClose else ""
  }

  const OverallOpen := Div + " class=\"suitability-overall\">\n        <h4>Overall Assessment</h4>\n        <p>"
  const OverallClose := "</p>\n    </div>"

  function OverallBlock(overall: Option<string>): string {
    OverallOpen + JsText(overall) + OverallClose
  }

  /** formatSuitabilityContent. */
  function FormatSuitability(s: Option<Suitability>): (r: string)
    ensures s.None? ==> r == NotAvailable
    ensures s.Some? ==>
      r == OverallBlock(s.value.overall)
        + ListSection(StrengthsOpen, s.value.strengths) + ListSection(ConcernsOpen, s.value.concerns)
  {
    match s
    case None => NotAvailable
    case Some(v) =>
      var html := OverallBlock(v.overall);
      var html := html + ListSection(StrengthsOpen, v.strengths);
      html + ListSection(ConcernsOpen, v.concerns)
  }

  /** formatSkillGapsContent. */
  function FormatSkillGaps(g: Option<SkillGaps>): (r: string)
    ensures g.None? ==> r == NotAvailable
  {
    match g
    case None => NotAvailable
    case Some(v) =>
      var html := ListSection(MissingOpen, v.missing) + ListSection(WeakOpen, v.weak);
      if html == "" then NoGaps else html
  }

  /** A present, non-empty list of entries. */
  predicate HasEntries(xs: Option<seq<string>>) {
    xs.Some? && |xs.value| > 0
  }

  /** A list section under a heading that opens with a div is empty exactly when there are no
      entries, and otherwise starts like a div. */
  lemma ListSectionHead(open: string, xs: Option<seq<string>>)
    requires |open| >= 2 && open[1] == 'd'
    ensures ListSection(open, xs) == "" <==> !HasEntries(xs)
    ensures ListSection(open, xs) != "" ==> |ListSection(open, xs)| >= 2 && ListSection(open, xs)[1] == 'd'
  {
    if HasEntries(xs) {
      assert ListSection(open, xs)[1] == open[1];
    }
  }

  /** The skill-gaps section shows "not available" exactly for a missing record and "no
      significant gaps" exactly when both lists are missing or empty; otherwise it shows the
      missing-skills list (when there is one) followed by the weak-skills list. */
  lemma SkillGapsPlaceholders(g: Option<SkillGaps>)
    ensures FormatSkillGaps(g) == NotAvailable <==> g.None?
    ensures g.Some? ==>
      (FormatSkillGaps(g) == NoGaps <==> !HasEntries(g.value.missing) && !HasEntries(g.value.weak))
    ensures g.Some? && (HasEntries(g.value.missing) || HasEntries(g.value.weak)) ==>
      FormatSkillGaps(g) == ListSection(MissingOpen, g.value.missing) + ListSection(WeakOpen, g.value.weak)
  {
    if g.Some? {
      var m := ListSection(MissingOpen, g.value.missing);
      var w := ListSection(WeakOpen, g.value.weak);
      ListSectionHead(MissingOpen, g.value.missing);
      ListSectionHead(WeakOpen, g.value.weak);
      SectionsJoin(m, w);
      assert NotAvailable[1] == 'p' && NoGaps[1] == 'p';
    }
  }

  /** Two sections, each empty or opening like a div, are empty together or open like a div. */
  lemma SectionsJoin(m: string, w: string)
    requires m != "" ==> |m| >= 2 && m[1] == 'd'
    requires w != "" ==> |w| >= 2 && w[1] == 'd'
    ensures m + w == "" <==> m == "" && w == ""
    ensures m + w != "" ==> |m + w| >= 2 && (m + w)[1] == 'd'
  {
    if m != "" {
      assert (m + w)[1] == m[1];
    } else if w != "" {
      assert (m + w)[1] == w[1];
    }
  }

  /** The suitability section shows "not available" exactly for a missing record; otherwise it
      opens with the overall assessment. */
  lemma SuitabilityPlaceholder(s: Option<Suitability>)
    ensures FormatSuitability(s) == NotAvailable <==> s.None?
    ensures s.Some? ==> OverallBlock(s.value.overall) <= FormatSuitability(s)
  {
    if s.Some? {
      var o := OverallBlock(s.value.overall);
      assert o[1] == Div[1];
      DivPrefix(o, ListSection(StrengthsOpen, s.value.strengths), ListSection(ConcernsOpen, s.value.concerns));
      assert NotAvailable[1] == 'p';
    }
  }

  /** A string opening like a div stays a prefix, and keeps the opening, when text follows. */
  lemma DivPrefix(o: string, a: string, b: string)
    requires |o| >= 2 && o[1] == 'd'
    ensures o <= o + a + b
    ensures (o + a + b)[1] == 'd'
  {
    assert (o + a + b)[..|o|] == o;
  }

  // ---------------------------------------------------------------- recommendations

  /** One numbered recommendation: the number is the 1-based position, not part of the data. */
  function RecItem(number: nat, rec: string): string {
    "<div class=\"recommendation-item\">\n            <div class=\"rec-number\">" + NatToString(number)
      + "</div>\n            <p>" + rec + "</p>\n        </div>"
  }

  /** The expected items: the k-th recommendation numbered k + 1. */
  function RecItems(recs: seq<string>): seq<string> {
    seq(|recs|, k requires 0 <= k < |recs| => RecItem(k + 1, recs[k]))
  }

  /** `recommendations.forEach((rec, index) => html += item(index + 1, rec))` from position index on. */
  function AppendRecs(html: string, recs: seq<string>, index: nat): (r: string)
    requires index <= |recs|
    ensures r == html + Concat(RecItems(recs)[index..])
    decreases |recs| - index
  {
    if index == |recs| then html
    else
      var items := RecItems(recs);
      assert items[index..] == [RecItem(index + 1, recs[index])] + items[index + 1..];
      AppendRecs(html + RecItem(index + 1, recs[index]), recs, index + 1)
  }

  /** formatRecommendationsContent: the placeholder for a missing or empty list, otherwise one
      item per recommendation, in input order, numbered from 1. */
  function FormatRecommendations(recs: Option<seq<string>>): (r: string)
    ensures !HasEntries(recs) ==> r == NoRecommendations
    ensures HasEntries(recs) ==> r == RecListOpen + Concat(RecItems(recs.value)) + RecListClose
  {
    if recs.None? || |recs.value| == 0 then NoRecommendations
    else AppendRecs(RecListOpen, recs.value, 0) + RecListClose
  }

  /** The placeholder appears exactly when there is nothing to list; otherwise the list opens
      with the first recommendation numbered 1 and closes with the last one numbered with the
      count of recommendations. */
  lemma RecommendationsShape(recs: Option<seq<string>>)
    ensures FormatRecommendations(recs) == NoRecommendations <==> !HasEntries(recs)
    ensures HasEntries(recs) ==> RecListOpen + RecItem(1, recs.value[0]) <= FormatRecommendations(recs)
    ensures HasEntries(recs) ==> var n := |recs.value|;
      FormatRecommendations(recs)
        == RecListOpen + Concat(RecItems(recs.value)[..n - 1]) + RecItem(n, recs.value[n - 1]) + RecListClose
  {
    if HasEntries(recs) {
      var r := FormatRecommendations(recs);
      assert r[1] == RecListOpen[1] == 'd';
      assert NoRecommendations[1] == 'p';
      var items := RecItems(recs.value);
      FramedFirst(RecListOpen, items, RecListClose);
      FramedLast(RecListOpen, items, RecListClose);
    }
  }

  /** Pieces written after an opening start with the first piece. */
  lemma FramedFirst(open: string, parts: seq<string>, close: string)
    requires |parts| > 0
    ensures open + parts[0] <= open + Concat(parts) + close
  {
    var rest := Concat(parts[1..]);
    assert Concat(parts) == parts[0] + rest;
    PrefixFramed(open, parts[0], rest, close);
  }

  /** A piece followed by more text, between an opening and a closing, starts with the
      opening and the piece. */
  lemma PrefixFramed(open: string, piece: string, rest: string, close: string)
    ensures open + piece <= open + (piece + rest) + close
  {
    var whole := open + (piece + rest) + close;
    assert whole[..|open| + |piece|] == open + piece;
  }

  /** Pieces written before a closing end with the last piece. */
  lemma FramedLast(open: string, parts: seq<string>, close: string)
    requires |parts| > 0
    ensures open + Concat(parts) + close == open + Concat(parts[..|parts| - 1]) + parts[|parts| - 1] + close
  {
    ConcatSnoc(parts);
    SuffixFramed(open, Concat(parts[..|parts| - 1]), parts[|parts| - 1], close);
  }

  /** Framing text whose last piece is split off leaves that piece just before the closing. */
  lemma SuffixFramed(open: string, init: string, last: string, close: string)
    ensures open + (init + last) + close == open + init + last + close
  {
    assert open + (init + last) == open + init + last;
  }

  /** The pieces written one after another end with the last piece. */
  lemma {:induction false} ConcatSnoc(parts: seq<string>)
    requires |parts| > 0
    ensures Concat(parts) == Concat(parts[..|parts| - 1]) + parts[|parts| - 1]
    decreases |parts|
  {
    if |parts| == 1 {
      assert parts[1..] == [];
      assert parts[..0] == [];
    } else {
      var init := parts[..|parts| - 1];
      ConcatSnoc(parts[1..]);
      assert parts[1..][..|parts| - 2] == init[1..];
      assert parts[1..][|parts| - 2] == parts[|parts| - 1];
      assert Concat(init) == init[0] + Concat(init[1..]);
    }
  }

  // ---------------------------------------------------------------- resume preview

  /** formatResumePreview: the fragment inside a fixed shell, or the failure paragraph for a
      missing or empty fragment. */
  function FormatResumePreview(content: Option<string>): (r: string)
    ensures content.None? || content.value == "" ==> r == PreviewFailed
    ensures content.Some? && content.value != "" ==> PreviewHead <= r && |r| == |PreviewHead| + |content.value| + |PreviewTail|
  {
    if content.None? || content.value == "" then PreviewFailed
    else PreviewHead + content.value + PreviewTail
  }

  /** Reads the fragment back out of a rendered preview; None for anything not in the shell. */
  function PreviewBody(html: string): Option<string> {
    if |html| >= |PreviewHead| + |PreviewTail|
      && html[..|PreviewHead|] == PreviewHead
      && html[|html| - |PreviewTail|..] == PreviewTail
    then Some(html[|PreviewHead|..|html| - |PreviewTail|])
    else None
  }

  /** The preview embeds the fragment unchanged, and the failure paragraph cannot be mistaken
      for an embedded fragment. */
  lemma PreviewRoundTrip(content: Option<string>)
    ensures content.Some? && content.value != "" ==>
      PreviewBody(FormatResumePreview(content)) == content
    ensures content.None? || content.value == "" ==> PreviewBody(FormatResumePreview(content)).None?
  {
    if content.Some? && content.value != "" {
      var r := FormatResumePreview(content);
      assert r[..|PreviewHead|] == PreviewHead;
      assert r[|r| - |PreviewTail|..] == PreviewTail;
      assert r[|PreviewHead|..|r| - |PreviewTail|] == content.value;
    } else {
      assert |PreviewFailed| < |PreviewHead|;
    }
  }

  // ---------------------------------------------------------------- the whole result

  /** The score the result view shows: `results.matchScore || 75`. */
  function DisplayedScore(score: Option<int>): (r: int)
    ensures r != 0
    ensures score.Some? && score.value != 0 ==> r == score.value
    ensures score.None? || score.value == 0 ==> r == DefaultScore
  {
    if score.Some? && score.value != 0 then score.value else DefaultScore
  }

  /** What displayResults puts on the page. */
  datatype Display = Display(
    score: int, suitability: string, skillGaps: string, recommendations: string, preview: string)

  /** displayResults: the score and the four sections of the result view. */
  function DisplayResults(r: AnalysisResult): Display {
    Display(
      DisplayedScore(r.matchScore),
      FormatSuitability(r.suitability),
      FormatSkillGaps(r.skillGaps),
      FormatRecommendations(r.recommendations),
      FormatResumePreview(r.optimizedResume))
  }

  /** Each section of the result view shows its placeholder exactly when the result lacks it,
      the score is never 0 and is the result's own whenever that is non-zero, and the resume
      preview gives back the result's resume. */
  lemma DisplayResultsShape(r: AnalysisResult)
    ensures var d := DisplayResults(r);
      d.score != 0 && (r.matchScore.Some? && r.matchScore.value != 0 ==> d.score == r.matchScore.value)
    ensures DisplayResults(r).suitability == NotAvailable <==> r.suitability.None?
    ensures DisplayResults(r).skillGaps == NotAvailable <==> r.skillGaps.None?
    ensures DisplayResults(r).recommendations == NoRecommendations <==> !HasEntries(r.recommendations)
    ensures r.optimizedResume.Some? && r.optimizedResume.value != "" ==>
      PreviewBody(DisplayResults(r).preview) == r.optimizedResume
    ensures r.optimizedResume.None? || r.optimizedResume.value == "" ==>
      PreviewBody(DisplayResults(r).preview).None?
  {
    SuitabilityPlaceholder(r.suitability);
    SkillGapsPlaceholders(r.skillGaps);
    RecommendationsShape(r.recommendations);
    PreviewRoundTrip(r.optimizedResume);
  }

  // ---------------------------------------------------------------- the client's demo result

  const MockRecommendations: seq<string> := [
    "Consider obtaining AWS certification to strengthen cloud computing credentials",
    "Highlight any containerization or DevOps experience more prominently",
    "Add specific metrics and achievements to quantify your impact",
    "Include relevant keywords from the job description naturally throughout your resume",
    "Consider adding a professional summary section at the top"]

  /** The opening of generateMockResume's fixed sample resume; its remaining fixed sections are
      not reproduced. */
  const MockResumeHtml := "\n        <div class=\"resume-section\">\n            <h3>John Doe</h3>\n            <p>Software Engineer | Full Stack Developer</p>\n            <p>Email: john.doe@email.com | Phone: (555) 123-4567 | LinkedIn: linkedin.com/in/johndoe</p>\n        </div>\n    "

  /** showMockResults' fixed result, shown whenever the request fails. */
  function MockResult(): AnalysisResult {
    Complete(
      78,
      "Good match for this position",
      ["Strong technical background in required technologies",
       "Relevant work experience in similar roles",
       "Educational background aligns with job requirements"],
      ["Limited experience with some specific tools mentioned",
       "Could benefit from additional certifications"],
      ["AWS Cloud Certification",
       "Docker containerization experience",
       "Agile/Scrum methodology experience"],
      ["Leadership experience",
       "Public speaking skills",
       "Project management"],
      MockRecommendations,
      MockResumeHtml)
  }

  /** Which result the result view was last drawn from: a response's result, or the fixed demo
      result that showMockResults draws. */
  datatype View = ResultView(result: AnalysisResult) | DemoView

  /** What the result view shows for a view. */
  function Screen(v: View): Display {
    match v
    case ResultView(r) => DisplayResults(r)
    case DemoView => DisplayResults(MockResult())
  }

  /** The demo view shows the score 78. */
  lemma MockDisplayScore()
    ensures Screen(DemoView).score == 78
  {
  }

  /** The demo view lists the five fixed recommendations, numbered 1 to 5. */
  lemma MockDisplay()
    ensures Screen(DemoView).recommendations
      == RecListOpen + Concat(RecItems(MockRecommendations)) + RecListClose
    ensures |RecItems(MockRecommendations)| == 5
  {
  }
}
