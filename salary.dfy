/** The salary predictor (server/routes/salary.ts): table lookups by a
    normalised key, a skill bonus, a capped experience bonus and fixed
    weights. The arithmetic is exact: Dafny's `real` is rational, location
    multipliers are kept in hundredths, and `Math.round` is `Round`. */
module Salary {
  import opened Api
  import opened Text

  // ---------------------------------------------------------------------------
  // The constant tables
  // ---------------------------------------------------------------------------

  datatype SalaryRange = SalaryRange(min: int, max: int)

  /** Base salary range per normalised role. */
  const BaseSalaries: map<string, SalaryRange> := map[
    "frontend-developer" := SalaryRange(600000, 1200000),
    "backend-developer" := SalaryRange(700000, 1300000),
    "full-stack-engineer" := SalaryRange(800000, 1400000),
    "data-scientist" := SalaryRange(750000, 1500000),
    "data-analyst" := SalaryRange(500000, 900000),
    "devops-engineer" := SalaryRange(750000, 1400000),
    "machine-learning-engineer" := SalaryRange(800000, 1600000),
    "product-manager" := SalaryRange(800000, 1500000),
    "qa-engineer" := SalaryRange(500000, 900000),
    "ui-ux-designer" := SalaryRange(600000, 1100000)
  ]

  const DefaultRange := SalaryRange(400000, 800000)

  /** Location multipliers per normalised location, in hundredths
      (150 stands for 1.5). */
  const LocationMultipliers: map<string, nat> := map[
    "san-francisco" := 150,
    "new-york" := 140,
    "bangalore" := 100,
    "delhi" := 95,
    "mumbai" := 105,
    "hyderabad" := 95,
    "remote" := 110,
    "default" := 100
  ]

  /** Bonus per normalised skill name. */
  const SkillValues: map<string, nat> := map[
    "javascript" := 50000,
    "typescript" := 60000,
    "react" := 80000,
    "nodejs" := 70000,
    "python" := 60000,
    "aws" := 90000,
    "kubernetes" := 100000,
    "docker" := 80000,
    "machine-learning" := 120000,
    "data-science" := 100000,
    "postgresql" := 70000,
    "mongodb" := 60000,
    "graphql" := 75000,
    "rest" := 50000
  ]

  const DefaultSkillValue: nat := 20000

  // ---------------------------------------------------------------------------
  // Lookups with fallbacks
  // ---------------------------------------------------------------------------

  /** The role's range, or {400000, 800000} for a role not in the table. */
  function BaseRange(roleKey: string): (r: SalaryRange)
    ensures 0 < r.min <= r.max
    ensures roleKey !in BaseSalaries ==> r == DefaultRange
    ensures roleKey in BaseSalaries ==> r == BaseSalaries[roleKey]
  {
    if roleKey in BaseSalaries then BaseSalaries[roleKey] else DefaultRange
  }

  /** The location's multiplier in hundredths, or that of "default" (1.0). */
  function Multiplier(locationKey: string): (m: nat)
    ensures 95 <= m <= 150
    ensures locationKey !in LocationMultipliers ==> m == 100
    ensures locationKey in LocationMultipliers ==> m == LocationMultipliers[locationKey]
  {
    if locationKey in LocationMultipliers then LocationMultipliers[locationKey]
    else LocationMultipliers["default"]
  }

  /** The skill's bonus, or 20000 for a skill not in the table; never less
      than 20000. */
  function SkillValue(skillKey: string): (v: nat)
    ensures v >= DefaultSkillValue
    ensures skillKey !in SkillValues ==> v == DefaultSkillValue
    ensures skillKey in SkillValues ==> v == SkillValues[skillKey]
  {
    if skillKey in SkillValues then SkillValues[skillKey] else DefaultSkillValue
  }

  /** `skills.reduce((acc, skill) => acc + value(skill), 0)`, a left fold. */
  function SkillBonus(skills: seq<string>): (bonus: nat)
    ensures bonus >= DefaultSkillValue * |skills|
    decreases |skills|
  {
    if skills == [] then 0
    else SkillBonus(skills[..|skills| - 1]) + SkillValue(NormalizeKey(skills[|skills| - 1]))
  }

  /** The bonus of a list of skills is the sum of the bonuses of its parts. */
  lemma {:induction false} SkillBonusAppend(a: seq<string>, b: seq<string>)
    ensures SkillBonus(a + b) == SkillBonus(a) + SkillBonus(b)
    decreases |b|
  {
    if b == [] {
      assert a + b == a;
    } else {
      assert (a + b)[..|a + b| - 1] == a + b[..|b| - 1];
      assert (a + b)[|a + b| - 1] == b[|b| - 1];
      SkillBonusAppend(a, b[..|b| - 1]);
    }
  }

  /** Inserting a skill anywhere raises the bonus by at least 20000. */
  lemma SkillBonusInsert(a: seq<string>, skill: string, b: seq<string>)
    ensures SkillBonus(a + [skill] + b) >= SkillBonus(a + b) + DefaultSkillValue
  {
    SkillBonusAppend(a + [skill], b);
    SkillBonusAppend(a, [skill]);
    SkillBonusAppend(a, b);
    assert [skill][..0] == [];
  }

  /** `Math.min(experience * 50000, 300000)`. */
  function ExperienceBonus(experience: int): (bonus: int)
    ensures bonus <= 300000
    ensures experience >= 0 ==> bonus >= 0
  {
    if experience * 50000 < 300000 then experience * 50000 else 300000
  }

  lemma ExperienceBonusProperties(e1: int, e2: int)
    ensures ExperienceBonus(e1) <= 300000
    ensures e1 >= 0 ==> ExperienceBonus(e1) >= 0
    ensures e1 <= e2 ==> ExperienceBonus(e1) <= ExperienceBonus(e2)
    ensures e1 >= 6 ==> ExperienceBonus(e1) == 300000
  {
  }

  // ---------------------------------------------------------------------------
  // The formulas
  // ---------------------------------------------------------------------------

  /** round(baseMin * multiplier + 0.3 * skillBonus + 0.2 * experienceBonus) */
  function MinSalary(range: SalaryRange, multiplier: nat, skillBonus: nat, experienceBonus: int): int {
    Round(range.min as real * (multiplier as real / 100.0)
          + skillBonus as real * 0.3 + experienceBonus as real * 0.2)
  }

  /** round(baseMax * multiplier + 0.5 * skillBonus + 0.4 * experienceBonus) */
  function MaxSalary(range: SalaryRange, multiplier: nat, skillBonus: nat, experienceBonus: int): int {
    Round(range.max as real * (multiplier as real / 100.0)
          + skillBonus as real * 0.5 + experienceBonus as real * 0.4)
  }

  /** round((min + max) / 2) */
  function AverageSalary(minSalary: int, maxSalary: int): int {
    Round((minSalary + maxSalary) as real / 2.0)
  }

  /** Rounding the midpoint keeps it between the two ends. */
  lemma AverageBetween(minSalary: int, maxSalary: int)
    requires minSalary <= maxSalary
    ensures minSalary <= AverageSalary(minSalary, maxSalary) <= maxSalary
  {
    if minSalary < maxSalary {
      RoundMonotone((minSalary + maxSalary) as real / 2.0, (maxSalary as real) - 0.5);
      RoundMonotone(minSalary as real, (minSalary + maxSalary) as real / 2.0);
      RoundInt(minSalary);
    } else {
      assert (minSalary + maxSalary) as real / 2.0 == minSalary as real;
      RoundInt(minSalary);
    }
  }

  lemma ScaledOrder(range: SalaryRange, multiplier: nat)
    requires range.min <= range.max
    ensures range.min as real * (multiplier as real / 100.0) <= range.max as real * (multiplier as real / 100.0)
  {
    var m := multiplier as real / 100.0;
    assert (range.max - range.min) as real * m >= 0.0;
  }

  /** With a non-negative experience bonus the minimum never exceeds the
      maximum: each term of the minimum is at most the matching term of the
      maximum. */
  lemma MinAtMostMax(range: SalaryRange, multiplier: nat, skillBonus: nat, experienceBonus: int)
    requires range.min <= range.max && experienceBonus >= 0
    ensures MinSalary(range, multiplier, skillBonus, experienceBonus)
         <= MaxSalary(range, multiplier, skillBonus, experienceBonus)
  {
    ScaledOrder(range, multiplier);
    var m := multiplier as real / 100.0;
    var lo, hi := range.min as real * m, range.max as real * m;
    var b, e := skillBonus as real, experienceBonus as real;
    assert b * 0.3 <= b * 0.5;
    assert e * 0.2 <= e * 0.4;
    assert lo + b * 0.3 + e * 0.2 <= hi + b * 0.5 + e * 0.4;
    RoundMonotone(lo + b * 0.3 + e * 0.2, hi + b * 0.5 + e * 0.4);
  }

  // ---------------------------------------------------------------------------
  // Market trend and factors
  // ---------------------------------------------------------------------------

  /** "Rising rapidly" for a role mentioning "ai" or "ml" anywhere, else
      "Rising" for "devops", else "Stable". */
  function MarketTrend(role: string): (trend: string)
    ensures trend in {"Rising rapidly", "Rising", "Stable"}
    ensures trend == "Rising rapidly" <==> Contains(Lower(role), "ai") || Contains(Lower(role), "ml")
    ensures trend == "Rising" <==>
      !Contains(Lower(role), "ai") && !Contains(Lower(role), "ml") && Contains(Lower(role), "devops")
  {
    var lower := Lower(role);
    if Contains(lower, "ai") || Contains(lower, "ml") then "Rising rapidly"
    else if Contains(lower, "devops") then "Rising"
    else "Stable"
  }

  /** The four informational lines, in template order. */
  function Factors(skillCount: nat, experience: int, location: string, role: string): seq<string> {
    [
      NatToString(skillCount) + " relevant skills identified",
      IntToString(experience) + " years of experience",
      location + " market data used",
      "High demand for " + role
    ]
  }

  // ---------------------------------------------------------------------------
  // The handler
  // ---------------------------------------------------------------------------

  /** `!skills || !experience || !location || !role`: an absent field, an
      experience of 0 or an empty string. An empty skill list passes. */
  predicate Rejected(req: SalaryPredictionRequest) {
    req.skills.None? || req.experience.None? || req.experience.value == 0
    || req.location == "" || req.role == ""
  }

  /** What `handleSalaryPrediction` answers. */
  function PredictSalary(req: SalaryPredictionRequest): (r: Reply<SalaryPredictionResponse>)
    ensures r.Fail? <==> Rejected(req)
    ensures r.Fail? ==> r == Fail(400, "Missing required fields")
    ensures r.Ok? ==> r.body.currency == "INR" && |r.body.factors| == 4
    ensures r.Ok? ==> r.body.marketTrend == MarketTrend(req.role)
    ensures r.Ok? && req.experience.value > 0 ==>
      r.body.minSalary <= r.body.averageSalary <= r.body.maxSalary
  {
    if Rejected(req) then Fail(400, "Missing required fields")
    else
      var skills, experience := req.skills.value, req.experience.value;
      var range := BaseRange(NormalizeKey(req.role));
      var multiplier := Multiplier(NormalizeKey(req.location));
      var skillBonus := SkillBonus(skills);
      var experienceBonus := ExperienceBonus(experience);
      var minSalary := MinSalary(range, multiplier, skillBonus, experienceBonus);
      var maxSalary := MaxSalary(range, multiplier, skillBonus, experienceBonus);
      var averageSalary := AverageSalary(minSalary, maxSalary);
      assert experience > 0 ==> minSalary <= averageSalary <= maxSalary by {
        if experience > 0 {
          MinAtMostMax(range, multiplier, skillBonus, experienceBonus);
          AverageBetween(minSalary, maxSalary);
        }
      }
      Ok(SalaryPredictionResponse(
        minSalary, maxSalary, averageSalary, "INR", MarketTrend(req.role),
        Factors(|skills|, experience, req.location, req.role)))
  }

  // ---------------------------------------------------------------------------
  // Properties of the prediction
  // ---------------------------------------------------------------------------

  /** Helper for the lemmas below: the response figures, named by the
      formulas they come from. */
  lemma PredictionFormulas(req: SalaryPredictionRequest)
    requires !Rejected(req)
    ensures var range := BaseRange(NormalizeKey(req.role));
      var multiplier := Multiplier(NormalizeKey(req.location));
      var skillBonus := SkillBonus(req.skills.value);
      var experienceBonus := ExperienceBonus(req.experience.value);
      var body := PredictSalary(req).body;
      && body.minSalary == MinSalary(range, multiplier, skillBonus, experienceBonus)
      && body.maxSalary == MaxSalary(range, multiplier, skillBonus, experienceBonus)
      && body.averageSalary == AverageSalary(body.minSalary, body.maxSalary)
  {
  }

  /** Adding a skill, at any position, never lowers the minimum or the
      maximum. */
  lemma AddingSkillNeverLowers(req: SalaryPredictionRequest, i: nat, skill: string)
    requires !Rejected(req) && i <= |req.skills.value|
    ensures var skills := req.skills.value;
      var more := req.(skills := Some(skills[..i] + [skill] + skills[i..]));
      && PredictSalary(more).Ok?
      && PredictSalary(more).body.minSalary >= PredictSalary(req).body.minSalary
      && PredictSalary(more).body.maxSalary >= PredictSalary(req).body.maxSalary
  {
    var skills := req.skills.value;
    var more := req.(skills := Some(skills[..i] + [skill] + skills[i..]));
    SkillBonusInsert(skills[..i], skill, skills[i..]);
    assert skills[..i] + skills[i..] == skills;
    var range := BaseRange(NormalizeKey(req.role));
    var m := Multiplier(NormalizeKey(req.location)) as real / 100.0;
    var e := ExperienceBonus(req.experience.value) as real;
    var b, b' := SkillBonus(skills) as real, SkillBonus(more.skills.value) as real;
    RoundMonotone(range.min as real * m + b * 0.3 + e * 0.2, range.min as real * m + b' * 0.3 + e * 0.2);
    RoundMonotone(range.max as real * m + b * 0.5 + e * 0.4, range.max as real * m + b' * 0.5 + e * 0.4);
  }

  /** More experience never lowers the minimum or the maximum; from six
      years on the bonus is capped and the figures stop changing. */
  lemma ExperienceMonotone(req: SalaryPredictionRequest, experience: int)
    requires !Rejected(req) && experience != 0 && req.experience.value <= experience
    ensures var more := req.(experience := Some(experience));
      && PredictSalary(more).Ok?
      && PredictSalary(more).body.minSalary >= PredictSalary(req).body.minSalary
      && PredictSalary(more).body.maxSalary >= PredictSalary(req).body.maxSalary
      && (req.experience.value >= 6 ==>
            PredictSalary(more).body.minSalary == PredictSalary(req).body.minSalary
            && PredictSalary(more).body.maxSalary == PredictSalary(req).body.maxSalary)
  {
    var range := BaseRange(NormalizeKey(req.role));
    var m := Multiplier(NormalizeKey(req.location)) as real / 100.0;
    var b := SkillBonus(req.skills.value) as real;
    ExperienceBonusProperties(req.experience.value, experience);
    var e, e' := ExperienceBonus(req.experience.value) as real, ExperienceBonus(experience) as real;
    RoundMonotone(range.min as real * m + b * 0.3 + e * 0.2, range.min as real * m + b * 0.3 + e' * 0.2);
    RoundMonotone(range.max as real * m + b * 0.5 + e * 0.4, range.max as real * m + b * 0.5 + e' * 0.4);
  }

  /** Helper for the examples: a name without whitespace normalises to its
      lowercase form. */
  lemma LowerKey(name: string, key: string)
    requires Lower(name) == key && NoSpace(key)
    ensures NormalizeKey(name) == key
  {
    HyphenateIdentity(key);
  }

  /** A skill list none of whose names is in the table earns 20000 per
      skill. */
  lemma {:induction false} UnlistedSkillsBonus(skills: seq<string>)
    requires forall i :: 0 <= i < |skills| ==> NormalizeKey(skills[i]) !in SkillValues
    ensures SkillBonus(skills) == DefaultSkillValue * |skills|
    decreases |skills|
  {
    if skills != [] {
      UnlistedSkillsBonus(skills[..|skills| - 1]);
    }
  }

  /** When no lookup hits its table the fallbacks {400000, 800000}, 1.0
      and 20000 per skill apply. */
  predicate AllFallbacks(req: SalaryPredictionRequest)
    requires req.skills.Some?
  {
    && NormalizeKey(req.role) !in BaseSalaries
    && NormalizeKey(req.location) !in LocationMultipliers
    && forall i :: 0 <= i < |req.skills.value| ==> NormalizeKey(req.skills.value[i]) !in SkillValues
  }

  /** With every lookup falling back, the range depends only on the number
      of skills and the experience. */
  lemma FallbackPrediction(req: SalaryPredictionRequest)
    requires !Rejected(req) && AllFallbacks(req)
    ensures var n := |req.skills.value| as real;
      var e := ExperienceBonus(req.experience.value) as real;
      && PredictSalary(req).Ok?
      && PredictSalary(req).body.minSalary == Round(400000.0 + 6000.0 * n + 0.2 * e)
      && PredictSalary(req).body.maxSalary == Round(800000.0 + 10000.0 * n + 0.4 * e)
  {
    UnlistedSkillsBonus(req.skills.value);
    PredictionFormulas(req);
  }

  /** One unlisted skill and two years of experience: 426000 to 850000,
      averaging 638000. */
  lemma FallbackExample(req: SalaryPredictionRequest)
    requires !Rejected(req) && AllFallbacks(req)
    requires |req.skills.value| == 1 && req.experience.value == 2
    ensures var r := PredictSalary(req);
      && r.Ok?
      && r.body.minSalary == 426000 && r.body.maxSalary == 850000 && r.body.averageSalary == 638000
  {
    FallbackPrediction(req);
    PredictionFormulas(req);
    assert Round(400000.0 + 6000.0 + 0.2 * 100000.0) == 426000;
    assert Round(800000.0 + 10000.0 + 0.4 * 100000.0) == 850000;
  }

  /** Negative experience is not rejected, and enough of it puts the
      minimum above the maximum: with no skills and -100 years the range is
      -600000 to -1200000. */
  lemma NegativeExperienceInvertsRange(req: SalaryPredictionRequest)
    requires req.skills == Some([]) && req.experience == Some(-100)
    requires req.location != "" && req.role != ""
    requires AllFallbacks(req)
    ensures var r := PredictSalary(req);
      && r.Ok? && r.body.minSalary == -600000 && r.body.maxSalary == -1200000
      && r.body.minSalary > r.body.maxSalary
  {
    FallbackPrediction(req);
    assert Round(400000.0 + 0.2 * (-5000000.0)) == -600000;
    assert Round(800000.0 + 0.4 * (-5000000.0)) == -1200000;
  }

  // The concrete-name lemmas below take the name as a parameter pinned by
  // `requires name == "..."` instead of writing the literal inside the
  // `ensures`: a normalisation applied to a literal is unrolled character by
  // character wherever the term occurs, which makes every proof near it
  // needlessly expensive.

  /** "QA" is not a listed role: its key "qa" is not "qa-engineer". */
  lemma UnlistedRole(role: string)
    requires role == "QA"
    ensures NormalizeKey(role) == "qa" && BaseRange(NormalizeKey(role)) == DefaultRange
  {
    LowerKey(role, "qa");
  }

  /** Helper for the examples: two words separated by one space normalise
      to the lowercase words joined by "-". */
  lemma TwoWordKey(name: string, x: string, y: string)
    requires Lower(name) == x + " " + y && NoSpace(x) && NoSpace(y)
    ensures NormalizeKey(name) == x + "-" + y
  {
    HyphenateRun(x, " ", y);
    HyphenateIdentity(y);
  }

  /** Only whitespace becomes "-": "UI/UX Designer" keeps its slash, so it
      is not the table's "ui-ux-designer" and gets the fallback range. */
  lemma SlashedRoleFallsBack(role: string)
    requires role == "UI/UX Designer"
    ensures NormalizeKey(role) == "ui/ux-designer"
    ensures BaseRange(NormalizeKey(role)) == DefaultRange
  {
    assert Lower(role) == "ui/ux" + " " + "designer";
    TwoWordKey(role, "ui/ux", "designer");
    assert "ui/ux-designer"[0] != "data-scientist"[0];
    assert "ui/ux-designer"[2] != "ui-ux-designer"[2];
  }

  /** "Pune" is not in the location table: multiplier 1.0. */
  lemma UnlistedLocation(location: string)
    requires location == "Pune"
    ensures NormalizeKey(location) == "pune" && Multiplier(NormalizeKey(location)) == 100
  {
    LowerKey(location, "pune");
  }

  /** "Node.js" is not the table's "nodejs": bonus 20000. */
  lemma DottedSkillFallsBack(skill: string)
    requires skill == "Node.js"
    ensures NormalizeKey(skill) == "node.js" && SkillValue(NormalizeKey(skill)) == DefaultSkillValue
  {
    DottedSkillKey(skill);
  }

  /** Normalisation keeps the dot of "Node.js". */
  lemma DottedSkillKey(skill: string)
    requires skill == "Node.js"
    ensures NormalizeKey(skill) == "node.js"
  {
    LowerKey(skill, "node.js");
  }

  /** The trend looks at substrings of the lowercased role. "ML Engineer"
      is rising rapidly. */
  lemma MlRoleRisingRapidly()
    ensures MarketTrend("ML Engineer") == "Rising rapidly"
  {
    assert Lower("ML Engineer") == "ml engineer";
    assert OccursAt("ml engineer", "ml", 0);
  }

  /** "DevOps Engineer" is rising. */
  lemma DevOpsRoleRising()
    ensures MarketTrend("DevOps Engineer") == "Rising"
  {
    var devops := Lower("DevOps Engineer");
    assert devops == "devops engineer";
    NotContainsPair(devops, "ai");
    NotContainsPair(devops, "ml");
    assert OccursAt(devops, "devops", 0);
  }

  /** "Machine Learning Engineer" contains neither "ai" nor "ml" nor
      "devops": stable. */
  lemma SpelledOutMachineLearningStable()
    ensures MarketTrend("Machine Learning Engineer") == "Stable"
  {
    var ml := Lower("Machine Learning Engineer");
    SpelledOutMachineLearningLower(ml);
    NotContainsPair(ml, "ai");
    NotContainsPair(ml, "ml");
    NotContainsHead(ml, "devops");
  }

  lemma SpelledOutMachineLearningLower(ml: string)
    requires ml == Lower("Machine Learning Engineer")
    ensures ml == "machine learning engineer"
  {
  }

  /** "Frontend Developer" has "dev" but no "devops": stable. */
  lemma FrontendStable()
    ensures MarketTrend("Frontend Developer") == "Stable"
  {
    var frontend := Lower("Frontend Developer");
    assert frontend == "frontend developer";
    NotContainsPair(frontend, "ai");
    NotContainsPair(frontend, "ml");
    NotContainsPair(frontend, "vo");
    assert OccursAt("devops", "vo", 2);
    if Contains(frontend, "devops") {
      ContainsTransitive(frontend, "devops", "vo");
    }
  }
}
