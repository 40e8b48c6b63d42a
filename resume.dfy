/** The resume routes (server/routes/resume.ts): the ATS score of a resume
    against a job description, and the in-memory store of saved resumes. */
module Resume {
  import opened Api
  import opened Text

  // ---------------------------------------------------------------------------
  // Keyword vocabulary and the matched / missing lists
  // ---------------------------------------------------------------------------

  /** The fixed vocabulary of technical keywords, in the order the source
      lists them; matched and missing lists keep this order. */
  const Keywords: seq<string> := [
    "javascript", "python", "java", "typescript", "react", "angular", "vue",
    "nodejs", "express", "django", "flask", "sql", "mongodb", "postgresql",
    "aws", "azure", "docker", "kubernetes", "git", "agile", "api", "rest",
    "graphql", "html", "css", "tailwind", "bootstrap", "linux", "ci/cd",
    "jenkins", "github"
  ]

  /** The keywords of `ks` that occur in the job description and whose
      occurrence in the resume is `inResume`, in the order of `ks`. */
  function Select(ks: seq<string>, resumeLower: string, jobLower: string, inResume: bool): (r: seq<string>)
    ensures IsSubsequence(r, ks)
    ensures forall k :: k in r <==>
      k in ks && Contains(jobLower, k) && Contains(resumeLower, k) == inResume
    decreases |ks|
  {
    if ks == [] then []
    else
      var rest := Select(ks[1..], resumeLower, jobLower, inResume);
      if Contains(jobLower, ks[0]) && Contains(resumeLower, ks[0]) == inResume
      then [ks[0]] + rest
      else rest
  }

  /** The keywords of `ks` that occur in the job description. */
  function InJob(ks: seq<string>, jobLower: string): seq<string>
    decreases |ks|
  {
    if ks == [] then []
    else if Contains(jobLower, ks[0]) then [ks[0]] + InJob(ks[1..], jobLower)
    else InJob(ks[1..], jobLower)
  }

  /** Keywords found in both texts. */
  function Matched(resumeLower: string, jobLower: string): seq<string> {
    Select(Keywords, resumeLower, jobLower, true)
  }

  /** Keywords found in the job description but not in the resume. */
  function Missing(resumeLower: string, jobLower: string): seq<string> {
    Select(Keywords, resumeLower, jobLower, false)
  }

  /** Matched and missing keywords share nothing, and together they are
      exactly the vocabulary keywords of the job description, each once. */
  lemma {:induction false} MatchedMissingPartition(ks: seq<string>, resumeLower: string, jobLower: string)
    ensures forall k :: !(k in Select(ks, resumeLower, jobLower, true) && k in Select(ks, resumeLower, jobLower, false))
    ensures multiset(Select(ks, resumeLower, jobLower, true)) + multiset(Select(ks, resumeLower, jobLower, false))
         == multiset(InJob(ks, jobLower))
    decreases |ks|
  {
    if ks != [] {
      MatchedMissingPartition(ks[1..], resumeLower, jobLower);
    }
  }

  /** Literal substring matching: a vocabulary keyword that is part of
      another one is matched whenever the longer one is. */
  lemma NestedKeywordsMatch(resumeLower: string, jobLower: string)
    ensures "javascript" in Matched(resumeLower, jobLower) ==> "java" in Matched(resumeLower, jobLower)
    ensures "github" in Matched(resumeLower, jobLower) ==> "git" in Matched(resumeLower, jobLower)
    ensures "postgresql" in Matched(resumeLower, jobLower) ==> "sql" in Matched(resumeLower, jobLower)
  {
    JavaInJavascript(resumeLower, jobLower);
    GitInGithub(resumeLower, jobLower);
    SqlInPostgresql(resumeLower, jobLower);
  }

  lemma JavaInJavascript(resumeLower: string, jobLower: string)
    ensures "javascript" in Matched(resumeLower, jobLower) ==> "java" in Matched(resumeLower, jobLower)
  {
    assert Keywords[2] == "java";
    assert OccursAt("javascript", "java", 0);
    NestedKeywordMatches(resumeLower, jobLower, "javascript", "java");
  }

  lemma GitInGithub(resumeLower: string, jobLower: string)
    ensures "github" in Matched(resumeLower, jobLower) ==> "git" in Matched(resumeLower, jobLower)
  {
    assert Keywords[18] == "git";
    assert OccursAt("github", "git", 0);
    NestedKeywordMatches(resumeLower, jobLower, "github", "git");
  }

  lemma SqlInPostgresql(resumeLower: string, jobLower: string)
    ensures "postgresql" in Matched(resumeLower, jobLower) ==> "sql" in Matched(resumeLower, jobLower)
  {
    assert Keywords[11] == "sql";
    assert OccursAt("postgresql", "sql", 7);
    NestedKeywordMatches(resumeLower, jobLower, "postgresql", "sql");
  }

  /** A vocabulary keyword inside a matched keyword is matched too. */
  lemma NestedKeywordMatches(resumeLower: string, jobLower: string, long: string, short: string)
    requires short in Keywords && Contains(long, short)
    ensures long in Matched(resumeLower, jobLower) ==> short in Matched(resumeLower, jobLower)
  {
    if long in Matched(resumeLower, jobLower) {
      ContainsTransitive(resumeLower, long, short);
      ContainsTransitive(jobLower, long, short);
    }
  }

  // ---------------------------------------------------------------------------
  // Score
  // ---------------------------------------------------------------------------

  /** The keyword part of the score: 6 points per matched keyword, at most 60. */
  function KeywordPoints(matchedCount: nat): (points: int)
    ensures 0 <= points <= 60 && points % 6 == 0
    ensures points == 60 <==> matchedCount >= 10
  {
    if 6 * matchedCount < 60 then 6 * matchedCount else 60
  }

  /** Points for the resume sections the text mentions. */
  function SectionPoints(resumeLower: string): (points: int)
    ensures 0 <= points <= 40
    ensures Contains(resumeLower, "experience") || Contains(resumeLower, "work history") ==> points >= 15
  {
    (if Contains(resumeLower, "experience") || Contains(resumeLower, "work history") then 15 else 0)
    + (if Contains(resumeLower, "education") || Contains(resumeLower, "degree") then 10 else 0)
    + (if Contains(resumeLower, "skills") then 10 else 0)
    + (if Contains(resumeLower, "project") || Contains(resumeLower, "portfolio") then 5 else 0)
  }

  // ---------------------------------------------------------------------------
  // Recommendations
  // ---------------------------------------------------------------------------

  const AddSkills := "Add more relevant technical skills to match job requirements"
  const ConsiderPrefix := "Consider learning or highlighting: "
  const AddExperience := "Add a detailed work experience section"
  const AddProjects := "Include relevant projects and achievements"
  const AddSummary := "Add a professional summary or objective at the top"

  /** `missing.slice(0, n)`. */
  function Take(s: seq<string>, n: nat): (r: seq<string>)
    ensures |r| == if |s| < n then |s| else n
    ensures r == s[..|r|]
  {
    if |s| < n then s else s[..n]
  }

  /** The recommendation that names the first three missing keywords. */
  function Consider(missing: seq<string>): string {
    ConsiderPrefix + Join(Take(missing, 3), ", ")
  }

  /** One recommendation rule: its text if it fires, nothing otherwise. */
  function Rule(fires: bool, text: string): seq<string> {
    if fires then [text] else []
  }

  /** The five rules, each appended on its own condition, in a fixed order. */
  function Recommendations(resumeLower: string, matchedCount: nat, missing: seq<string>): (r: seq<string>)
    ensures |r| <= 5
  {
    Rule(matchedCount < 5, AddSkills)
    + Rule(|missing| > 5, Consider(missing))
    + Rule(!Contains(resumeLower, "experience"), AddExperience)
    + Rule(!Contains(resumeLower, "project"), AddProjects)
    + Rule(!Contains(resumeLower, "summary") && !Contains(resumeLower, "objective"), AddSummary)
  }

  lemma RecommendationTextsDistinct(missing: seq<string>)
    ensures Consider(missing) != AddSkills && Consider(missing) != AddExperience
    ensures Consider(missing) != AddProjects && Consider(missing) != AddSummary
    ensures AddSkills != AddExperience && AddSkills != AddProjects && AddSkills != AddSummary
    ensures AddExperience != AddProjects && AddExperience != AddSummary && AddProjects != AddSummary
  {
    assert Consider(missing)[33] == ':';
    assert AddSkills[33] == 's' && AddExperience[33] == 'c' && AddProjects[33] == 'i' && AddSummary[33] == 'e';
  }

  /** Each rule fires exactly on its own condition; at most five fire. */
  lemma RecommendationRules(resumeLower: string, matchedCount: nat, missing: seq<string>)
    ensures |Recommendations(resumeLower, matchedCount, missing)| <= 5
    ensures AddSkills in Recommendations(resumeLower, matchedCount, missing) <==> matchedCount < 5
    ensures Consider(missing) in Recommendations(resumeLower, matchedCount, missing) <==> |missing| > 5
    ensures AddExperience in Recommendations(resumeLower, matchedCount, missing)
        <==> !Contains(resumeLower, "experience")
    ensures AddProjects in Recommendations(resumeLower, matchedCount, missing)
        <==> !Contains(resumeLower, "project")
    ensures AddSummary in Recommendations(resumeLower, matchedCount, missing)
        <==> !Contains(resumeLower, "summary") && !Contains(resumeLower, "objective")
  {
    var skills := Rule(matchedCount < 5, AddSkills);
    var consider := Rule(|missing| > 5, Consider(missing));
    var experience := Rule(!Contains(resumeLower, "experience"), AddExperience);
    var projects := Rule(!Contains(resumeLower, "project"), AddProjects);
    var summary := Rule(!Contains(resumeLower, "summary") && !Contains(resumeLower, "objective"), AddSummary);
    assert Recommendations(resumeLower, matchedCount, missing)
        == skills + consider + experience + projects + summary;
    RecommendationTextsDistinct(missing);
  }

  // ---------------------------------------------------------------------------
  // The ATS score handler
  // ---------------------------------------------------------------------------

  const MaxScore := 100

  /** What `handleATSScore` answers. */
  function ATSScore(req: ATSScoreRequest): (r: Reply<ATSScoreResponse>)
    ensures r.Fail? <==> req.resumeText == [] || req.jobDescription == []
    ensures r.Fail? ==> r == Fail(400, "Resume text and job description are required")
    ensures r.Ok? ==> 0 <= r.body.score <= 100 && r.body.maxScore == 100
    ensures r.Ok? ==> |r.body.missingKeywords| <= 5 && |r.body.recommendations| <= 5
  {
    if req.resumeText == [] || req.jobDescription == [] then
      Fail(400, "Resume text and job description are required")
    else
      var resumeLower := Lower(req.resumeText);
      var jobLower := Lower(req.jobDescription);
      var matched := Matched(resumeLower, jobLower);
      var missing := Missing(resumeLower, jobLower);
      var score := KeywordPoints(|matched|) + SectionPoints(resumeLower);
      Ok(ATSScoreResponse(
        score, MaxScore, score,
        Recommendations(resumeLower, |matched|, missing),
        matched, Take(missing, 5)))
  }

  /** The score as `handleATSScore` accumulates it: real arithmetic, one
      `+=` per component, then `Math.round` capped at `maxScore`. */
  method SumScore(resumeLower: string, matchedCount: nat) returns (score: int)
    ensures score == KeywordPoints(matchedCount) + SectionPoints(resumeLower)
    ensures 0 <= score <= MaxScore
  {
    var total: real := 0.0;
    var keywordScore := (matchedCount as real / 10.0) * 60.0;
    total := total + (if keywordScore < 60.0 then keywordScore else 60.0);
    if Contains(resumeLower, "experience") || Contains(resumeLower, "work history") {
      total := total + 15.0;
    }
    if Contains(resumeLower, "education") || Contains(resumeLower, "degree") {
      total := total + 10.0;
    }
    if Contains(resumeLower, "skills") {
      total := total + 10.0;
    }
    if Contains(resumeLower, "project") || Contains(resumeLower, "portfolio") {
      total := total + 5.0;
    }
    assert total == (KeywordPoints(matchedCount) + SectionPoints(resumeLower)) as real;
    RoundInt(KeywordPoints(matchedCount) + SectionPoints(resumeLower));
    var rounded := Round(total);
    score := if rounded < MaxScore then rounded else MaxScore;
  }

  /** The recommendations as `handleATSScore` pushes them. */
  method BuildRecommendations(resumeLower: string, matchedCount: nat, missing: seq<string>)
    returns (recommendations: seq<string>)
    ensures recommendations == Recommendations(resumeLower, matchedCount, missing)
  {
    var skills := Rule(matchedCount < 5, AddSkills);
    var consider := Rule(|missing| > 5, Consider(missing));
    var experience := Rule(!Contains(resumeLower, "experience"), AddExperience);
    var projects := Rule(!Contains(resumeLower, "project"), AddProjects);
    recommendations := [];
    if matchedCount < 5 {
      recommendations := recommendations + [AddSkills];
    }
    assert recommendations == skills;
    if |missing| > 5 {
      recommendations := recommendations + [ConsiderPrefix + Join(missing[..3], ", ")];
    }
    assert recommendations == skills + consider;
    if !Contains(resumeLower, "experience") {
      recommendations := recommendations + [AddExperience];
    }
    assert recommendations == skills + consider + experience;
    if !Contains(resumeLower, "project") {
      recommendations := recommendations + [AddProjects];
    }
    assert recommendations == skills + consider + experience + projects;
    if !Contains(resumeLower, "summary") && !Contains(resumeLower, "objective") {
      recommendations := recommendations + [AddSummary];
    }
  }

  /** Out of a maximum of 100, the rounded percentage is the score itself. */
  lemma PercentageIsScore(score: int)
    ensures Round((score as real / MaxScore as real) * 100.0) == score
  {
    var x := score as real / MaxScore as real;
    assert x * 100.0 == score as real;
    RoundInt(score);
  }

  /** Helper for the handler: the reply of a request with both texts,
      named by its parts. */
  lemma ATSScoreReply(req: ATSScoreRequest)
    requires req.resumeText != [] && req.jobDescription != []
    ensures var resumeLower, jobLower := Lower(req.resumeText), Lower(req.jobDescription);
      var matched, missing := Matched(resumeLower, jobLower), Missing(resumeLower, jobLower);
      var score := KeywordPoints(|matched|) + SectionPoints(resumeLower);
      ATSScore(req) == Ok(ATSScoreResponse(
        score, MaxScore, score, Recommendations(resumeLower, |matched|, missing),
        matched, Take(missing, 5)))
  {
  }

  /** `handleATSScore`. */
  method HandleATSScore(req: ATSScoreRequest) returns (r: Reply<ATSScoreResponse>)
    ensures r == ATSScore(req)
    ensures r.Ok? ==> r.body.percentage == r.body.score
  {
    if req.resumeText == [] || req.jobDescription == [] {
      return Fail(400, "Resume text and job description are required");
    }
    var resumeLower := Lower(req.resumeText);
    var jobLower := Lower(req.jobDescription);
    var matched := Matched(resumeLower, jobLower);
    var missing := Missing(resumeLower, jobLower);
    var score := SumScore(resumeLower, |matched|);
    var recommendations := BuildRecommendations(resumeLower, |matched|, missing);
    var percentage := Round((score as real / MaxScore as real) * 100.0);
    PercentageIsScore(score);
    assert percentage == score;
    ATSScoreReply(req);
    r := Ok(ATSScoreResponse(
      score, MaxScore, percentage, recommendations, matched, Take(missing, 5)));
  }

  // ---------------------------------------------------------------------------
  // Properties of the ATS score
  // ---------------------------------------------------------------------------

  /** Whitespace is text: only the empty string is rejected. */
  lemma WhitespaceAccepted()
    ensures ATSScore(ATSScoreRequest(" ", "\n")).Ok?
  {
  }

  /** Changing the letter case of either text changes nothing. */
  lemma ATSScoreIgnoresCase(req: ATSScoreRequest, resumeText: string, jobDescription: string)
    requires SameIgnoringCase(req.resumeText, resumeText)
    requires SameIgnoringCase(req.jobDescription, jobDescription)
    ensures ATSScore(ATSScoreRequest(resumeText, jobDescription)) == ATSScore(req)
  {
    LowerOfSameIgnoringCase(req.resumeText, resumeText);
    LowerOfSameIgnoringCase(req.jobDescription, jobDescription);
  }

  /** More than five missing keywords: only five are returned, yet the
      "Consider learning" recommendation is given and names the first three
      of them. */
  lemma ManyMissingKeywords(req: ATSScoreRequest)
    requires req.resumeText != [] && req.jobDescription != []
    requires |Missing(Lower(req.resumeText), Lower(req.jobDescription))| > 5
    ensures |ATSScore(req).body.missingKeywords| == 5
    ensures ConsiderPrefix + Join(ATSScore(req).body.missingKeywords[..3], ", ")
         in ATSScore(req).body.recommendations
  {
    var missing := Missing(Lower(req.resumeText), Lower(req.jobDescription));
    assert Take(missing, 5)[..3] == missing[..3] == Take(missing, 3);
  }

  /** "work history" earns the experience bonus but does not silence the
      experience recommendation, which looks for "experience" only; likewise
      "portfolio" for projects. */
  lemma SectionSynonymsStillRecommended(req: ATSScoreRequest)
    requires req.resumeText != [] && req.jobDescription != []
    ensures var resumeLower := Lower(req.resumeText);
      Contains(resumeLower, "work history") && !Contains(resumeLower, "experience") ==>
        SectionPoints(resumeLower) >= 15 && AddExperience in ATSScore(req).body.recommendations
    ensures var resumeLower := Lower(req.resumeText);
      Contains(resumeLower, "portfolio") && !Contains(resumeLower, "project") ==>
        SectionPoints(resumeLower) >= 5 && AddProjects in ATSScore(req).body.recommendations
  {
    var resumeLower, jobLower := Lower(req.resumeText), Lower(req.jobDescription);
    var matched, missing := Matched(resumeLower, jobLower), Missing(resumeLower, jobLower);
    assert ATSScore(req).body.recommendations == Recommendations(resumeLower, |matched|, missing);
    RecommendationRules(resumeLower, |matched|, missing);
  }

  /** A resume and a job description that share "javascript" and "react",
      with a resume mentioning "experience" and "project", also share "java",
      a substring of "javascript": at least three matches, so the score is
      at least 18 + 15 + 5 = 38. */
  lemma JavaRidesAlongWithJavascript(req: ATSScoreRequest)
    requires req.resumeText != [] && req.jobDescription != []
    requires var resumeLower, jobLower := Lower(req.resumeText), Lower(req.jobDescription);
      && Contains(resumeLower, "javascript") && Contains(jobLower, "javascript")
      && Contains(resumeLower, "react") && Contains(jobLower, "react")
      && Contains(resumeLower, "experience") && Contains(resumeLower, "project")
    ensures "java" in ATSScore(req).body.matchedKeywords
    ensures |ATSScore(req).body.matchedKeywords| >= 3
    ensures ATSScore(req).body.score >= 38
  {
    var resumeLower, jobLower := Lower(req.resumeText), Lower(req.jobDescription);
    ThreeMatches(resumeLower, jobLower);
  }

  lemma ThreeMatches(resumeLower: string, jobLower: string)
    requires Contains(resumeLower, "javascript") && Contains(jobLower, "javascript")
    requires Contains(resumeLower, "react") && Contains(jobLower, "react")
    ensures "java" in Matched(resumeLower, jobLower)
    ensures |Matched(resumeLower, jobLower)| >= 3
  {
    var matched := Matched(resumeLower, jobLower);
    assert "react" in Keywords && "javascript" in Keywords;
    NestedKeywordsMatch(resumeLower, jobLower);
    AtLeastThree(matched, "javascript", "java", "react");
  }

  // ---------------------------------------------------------------------------
  // Saved resumes
  // ---------------------------------------------------------------------------

  /** The key under which a resume is saved. */
  function ResumeId(userId: string, now: nat): string {
    "resume_" + userId + "_" + NatToString(now)
  }

  /** Different users, or the same user at different times, get different
      keys. */
  lemma ResumeIdInjective(u1: string, t1: nat, u2: string, t2: nat)
    requires ResumeId(u1, t1) == ResumeId(u2, t2)
    ensures u1 == u2 && t1 == t2
  {
    assert ResumeId(u1, t1) == ("resume_" + u1) + "_" + NatToString(t1);
    assert ResumeId(u2, t2) == ("resume_" + u2) + "_" + NatToString(t2);
    NumberSuffixInjective("resume_" + u1, t1, "resume_" + u2, t2);
    assert u1 == ("resume_" + u1)[7..];
  }

  /** The in-memory map from resume id to the stored JSON text. */
  class ResumeStore {
    var resumes: map<string, string>

    constructor ()
      ensures resumes == map[]
    {
      resumes := map[];
    }

    /** `handleResumeSave`. */
    method Save(req: ResumeSaveRequest, now: nat) returns (r: Reply<ResumeSaveResponse>)
      modifies this
      ensures req.resumeData.None? || req.userId == [] ==>
        r == Fail(400, "Resume data and user ID are required") && resumes == old(resumes)
      ensures req.resumeData.Some? && req.userId != [] ==>
        && resumes == old(resumes)[ResumeId(req.userId, now) := req.resumeData.value]
        && r == Ok(ResumeSaveResponse(true, "Resume saved successfully", ResumeId(req.userId, now)))
    {
      if req.resumeData.None? || req.userId == [] {
        return Fail(400, "Resume data and user ID are required");
      }
      var resumeId := ResumeId(req.userId, now);
      resumes := resumes[resumeId := req.resumeData.value];
      r := Ok(ResumeSaveResponse(true, "Resume saved successfully", resumeId));
    }
  }
}
