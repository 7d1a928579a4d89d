/** The analysis result record exchanged between the server and the browser client.
    Every part may be absent: the client reads the record with presence checks and defaults,
    and the server builds its fallback and demo records with every part present. */
module Results {
  import opened Wrappers

  datatype Suitability = Suitability(
    overall: Option<string>,
    strengths: Option<seq<string>>,
    concerns: Option<seq<string>>)

  datatype SkillGaps = SkillGaps(
    missing: Option<seq<string>>,
    weak: Option<seq<string>>)

  datatype AnalysisResult = AnalysisResult(
    matchScore: Option<int>,
    suitability: Option<Suitability>,
    skillGaps: Option<SkillGaps>,
    recommendations: Option<seq<string>>,
    optimizedResume: Option<string>)

  /** A record with every part present, as the fixed fallback and demo results are written. */
  function Complete(
    score: int, overall: string, strengths: seq<string>, concerns: seq<string>,
    missing: seq<string>, weak: seq<string>, recommendations: seq<string>, resume: string
  ): AnalysisResult {
    AnalysisResult(
      Some(score),
      Some(Suitability(Some(overall), Some(strengths), Some(concerns))),
      Some(SkillGaps(Some(missing), Some(weak))),
      Some(recommendations),
      Some(resume))
  }
}
