# Job board back end: a verified model

This project models the four Express route modules of a small job-board
server and proves what they promise:

- **Resume** (`server/routes/resume.ts`): the ATS score of a resume against
  a job description. Both texts are lowercased. A fixed 31-keyword vocabulary
  is filtered into matched and missing keywords. A capped keyword score and
  four section bonuses are added up. Up to five recommendations are built.
  The module also holds the in-memory store of saved resumes.
- **Salary** (`server/routes/salary.ts`): the salary predictor. Role,
  location and skill names are normalised to keys. The keys are looked up in
  three constant tables with fallbacks. A capped experience bonus and fixed
  weights give the range, and the role picks a market-trend label.
- **Jobs** (`server/routes/jobs.ts`): eight fixed postings, a
  case-insensitive search, page slicing and lookup by id.
- **Auth** (`server/routes/auth.ts`): the in-memory user table keyed by
  user id. Login signs unknown addresses up on the fly. Registration rejects
  duplicate addresses. A bearer-token check reads the table.

Module layout: `Text` (text operations the handlers use: ASCII
`toLowerCase`, `includes`, `replace(/\s+/g, "-")`, `split`, `join`, number
rendering, `Math.round`), `Api` (the request and response shapes of
`shared/api.ts`, and a `Reply` that is either a body or an error status
with a message), and one module per route file.

Modelling choices:

- A handler's answer is `Reply<T>`: `Ok(body)` for a JSON body with status
  200, `Fail(status, message)` for an error status.
- An absent or empty string field of a request body is `""`. An absent
  array or number is `None`.
- Pure route code (salary, jobs, the ATS score) is functions. The
  step-by-step score sum and recommendation list of the ATS handler are
  methods with local variables. They are proved equal to the functions.
- The two module-level `Map`s are classes. `Resume.ResumeStore` holds
  `resumes`. `Auth.UserStore` holds `users`. A JavaScript `Map` is
  `Auth.UserMap`: its keys in insertion order plus the stored values, so
  `find` over `users.values()` sees the users in insertion order. The
  login and register methods are proved against the functions `Auth.Login`
  and `Auth.Register`, which the lemmas are about.
- Arithmetic is exact. Dafny's `real` is rational. Location multipliers are
  kept in hundredths. `Math.round(x)` is `floor(x + 1/2)`.
- Every `Date.now()` reading is a parameter. The login and register
  handlers read the clock twice, once for the user id and once inside
  `generateToken`, so they take two readings.
- `page` and `limit` are whatever `parseInt` produced: `None` stands for
  `NaN`. Any integer is allowed, and `Array.prototype.slice` is modelled
  with its negative-index and clamping rules.

Where the code behaves in ways a reader might not expect, the model follows
the code:

- Keyword matching is plain substring search. A text containing
  "javascript" also matches "java", so a resume and job description sharing
  "javascript" and "react" have at least three matches. If the resume
  also mentions "experience" and "project", the score is at least 38
  (`Resume.JavaRidesAlongWithJavascript`).
- Salary validation lets negative experience through, and then the minimum
  can exceed the maximum (`Salary.NegativeExperienceInvertsRange`). The
  ordering min ≤ average ≤ max is proved for positive experience, the only
  other case validation accepts.
- Two sign-ups in the same millisecond get the same id, and the second
  replaces the first (`Auth.SameMillisecondOverwrites`).

## Model

| member | source | states |
|---|---|---|
| Text.Lower | server/routes/resume.ts:78-79 | `toLowerCase` on ASCII letters, character by character; its properties are `LowerIdempotent` and `LowerOfSameIgnoringCase` |
| Text.Contains | server/routes/resume.ts:82-85 | `includes`: the pattern occurs at some position, with no word boundaries; `ContainsTransitive` relates nested patterns |
| Text.IsSpace | server/routes/salary.ts:60 | the `\s` class of JavaScript regular expressions: ASCII blanks and controls, no-break space, byte-order mark and the Unicode space separators; `HyphenateNoSpace` shows none survives the replacement |
| Text.Hyphenate | server/routes/salary.ts:60 | `replace(/\s+/g, "-")` over the `\s` class of JavaScript; `HyphenateRun`, `HyphenateNoSpace` and `HyphenateIdentity` state what it does |
| Text.NormalizeKey | server/routes/salary.ts:60 | the lookup key: lowercase, then every whitespace run becomes "-"; `NormalizeKeyIdempotent` and `NormalizeKeyNoSpace` |
| Text.Split | server/routes/auth.ts:119 | `split(c)`: at least one field; `SplitJoin`, `SplitAfterWord`, `SplitNoSeparator` and `FirstFieldOfWord` characterise the fields |
| Text.Join | server/routes/resume.ts:136 | `parts.join(sep)`: `SplitJoin` and `JoinSplit` make it the inverse of `Split` for a one-character separator |
| Text.Round | server/routes/salary.ts:81-87 | `Math.round` as floor(x + 0.5); `RoundInt` and `RoundMonotone` |
| Text.NatToString | server/routes/auth.ts:35 | `${n}` for a natural number: non-empty and all digits (`NatToStringDigits`), and injective (`NatToStringInjective`) |
| Text.IntToString | server/routes/salary.ts:104-105 | `${n}` for an integer, with "-" before a negative number; `IntToStringInjective` |
| Text.LowerOfSameIgnoringCase | server/routes/resume.ts:78-79 | texts that differ only in letter case have the same lowercase form |
| Text.ContainsTransitive | server/routes/resume.ts:82-85 | whatever occurs in a substring of a text occurs in the text |
| Text.HyphenateRun | server/routes/salary.ts:60 | a whitespace run between a word and the rest becomes exactly one "-" |
| Text.HyphenateRunStart | server/routes/salary.ts:60 | a leading whitespace run becomes exactly one "-" |
| Text.HyphenateCons | server/routes/salary.ts:60 | a non-whitespace character is kept in front of the rest's replacement |
| Text.HyphenateNoSpace | server/routes/salary.ts:60 | after the replacement no whitespace is left |
| Text.NormalizeKeyIdempotent | server/routes/salary.ts:60 | normalising a key a second time changes nothing |
| Text.SplitJoin | server/routes/auth.ts:119 | split fields never contain the separator, and joining them with it gives back the text |
| Text.JoinSplit | server/routes/resume.ts:136 | joining separator-free fields and splitting again gives back the fields |
| Text.SplitAfterWord | server/routes/auth.ts:119 | splitting a word, a separator and a rest gives the word followed by the fields of the rest |
| Text.FirstFieldIsPrefix | server/routes/auth.ts:39 | the first field is the prefix before the first separator, or the whole text |
| Text.FirstFieldOfWord | server/routes/auth.ts:119 | a separator-free word followed by nothing or a separator is the first field |
| Text.NatToStringInjective | server/routes/auth.ts:35 | distinct numbers render as distinct decimal strings |
| Text.IntToStringInjective | server/routes/salary.ts:105 | distinct integers, negative ones included, render as distinct strings |
| Text.NumberSuffixInjective | server/routes/auth.ts:17 | a text, "_" and a decimal number determine both the text and the number |
| Resume.Keywords | server/routes/resume.ts:44-76 | the 31 lowercase keywords, in source order |
| Resume.Matched | server/routes/resume.ts:82-85 | the keywords found in both texts: `Select` with the flag set |
| Resume.Missing | server/routes/resume.ts:88-91 | the job-description keywords absent from the resume: `Select` with the flag cleared; `MatchedMissingPartition` relates the two |
| Resume.Select | server/routes/resume.ts:82-91 | the kept keywords are a vocabulary-order subsequence; a keyword is kept iff it occurs in the job text and its occurrence in the resume equals the flag |
| Resume.MatchedMissingPartition | server/routes/resume.ts:82-91 | matched and missing are disjoint, and together they are exactly the vocabulary keywords of the job description, each once |
| Resume.NestedKeywordsMatch | server/routes/resume.ts:44-85 | "javascript" matched implies "java" matched; likewise "github"/"git" and "postgresql"/"sql" |
| Resume.NestedKeywordMatches | server/routes/resume.ts:82-85 | a vocabulary keyword contained in a matched keyword is matched too |
| Resume.JavaInJavascript | server/routes/resume.ts:44-85 | "javascript" matched implies "java" matched |
| Resume.GitInGithub | server/routes/resume.ts:44-85 | "github" matched implies "git" matched |
| Resume.SqlInPostgresql | server/routes/resume.ts:44-85 | "postgresql" matched implies "sql" matched |
| Resume.KeywordPoints | server/routes/resume.ts:98 | the keyword part lies in [0, 60], is a multiple of 6, and is 60 exactly from ten matches on |
| Resume.SectionPoints | server/routes/resume.ts:101-121 | the section part lies in [0, 40], and a resume mentioning "experience" or "work history" gets at least 15 |
| Resume.Take | server/routes/resume.ts:161 | `slice(0, n)` has length min(n, length) and is a prefix |
| Resume.Recommendations | server/routes/resume.ts:126-153 | at most five recommendations; `RecommendationRules` states when each one fires |
| Resume.Consider | server/routes/resume.ts:134-137 | the "Consider learning or highlighting" text naming the first three missing keywords; `RecommendationTextsDistinct` and `ManyMissingKeywords` |
| Resume.RecommendationTextsDistinct | server/routes/resume.ts:128-153 | the five recommendation texts are pairwise different |
| Resume.RecommendationRules | server/routes/resume.ts:126-153 | at most five recommendations; each is present iff its own condition holds |
| Resume.ATSScore | server/routes/resume.ts:33-165 | 400 with the fixed message iff either text is empty; otherwise score in [0, 100], maxScore 100, at most five missing keywords and five recommendations |
| Resume.SumScore | server/routes/resume.ts:94-124 | the real-valued `+=` sum, rounded and capped, equals min(6·matched, 60) plus the section bonuses and lies in [0, 100] |
| Resume.BuildRecommendations | server/routes/resume.ts:126-153 | the pushed list equals the five rules in order |
| Resume.PercentageIsScore | server/routes/resume.ts:158 | out of 100, the rounded percentage is the score |
| Resume.HandleATSScore | server/routes/resume.ts:33-165 | the handler's answer is `ATSScore`, and percentage equals score |
| Resume.WhitespaceAccepted | server/routes/resume.ts:36-41 | whitespace-only texts are not rejected |
| Resume.ATSScoreIgnoresCase | server/routes/resume.ts:78-79 | changing the letter case of either text changes nothing in the answer |
| Resume.ManyMissingKeywords | server/routes/resume.ts:134-161 | with more than five missing keywords exactly five are returned and the "Consider learning" text names the first three |
| Resume.SectionSynonymsStillRecommended | server/routes/resume.ts:101-146 | "work history" without "experience" earns 15 points yet still gets the experience recommendation; likewise "portfolio" without "project" |
| Resume.JavaRidesAlongWithJavascript | server/routes/resume.ts:82-124 | sharing "javascript" and "react" gives at least three matches including "java"; with "experience" and "project" the score is at least 38 |
| Resume.ResumeId | server/routes/resume.ts:21 | the key `resume_<userId>_<now>`; `ResumeIdInjective` shows it determines both parts |
| Resume.ResumeIdInjective | server/routes/resume.ts:21 | distinct (user, time) pairs give distinct resume ids |
| Resume.ResumeStore.constructor | server/routes/resume.ts:9 | the store starts empty |
| Resume.ResumeStore.Save | server/routes/resume.ts:11-31 | missing data or user id: 400 and the store unchanged; otherwise the store gains `resume_<userId>_<now>` mapped to the data, nothing else changes, and that id is returned |
| Salary.BaseSalaries | server/routes/salary.ts:5-16 | the base range of each listed role |
| Salary.LocationMultipliers | server/routes/salary.ts:19-28 | the location multipliers, in hundredths |
| Salary.SkillValues | server/routes/salary.ts:31-46 | the bonus for each listed skill |
| Salary.BaseRange | server/routes/salary.ts:60-61 | the table range for a listed role, {400000, 800000} otherwise; always 0 < min ≤ max |
| Salary.Multiplier | server/routes/salary.ts:64-66 | the table multiplier for a listed location, 1.0 for an unlisted one; always between 0.95 and 1.5 |
| Salary.SkillValue | server/routes/salary.ts:70-71 | the table bonus for a listed skill, 20000 for an unlisted one; never below 20000 |
| Salary.SkillBonus | server/routes/salary.ts:69-72 | the `reduce` over the skills earns at least 20000 per skill |
| Salary.SkillBonusAppend | server/routes/salary.ts:69-72 | the fold over two lists is the sum of the folds |
| Salary.SkillBonusInsert | server/routes/salary.ts:69-72 | inserting a skill anywhere raises the bonus by at least 20000 |
| Salary.UnlistedSkillsBonus | server/routes/salary.ts:69-72 | unlisted skills earn 20000 each |
| Salary.ExperienceBonus | server/routes/salary.ts:75 | the bonus is at most 300000 and non-negative for non-negative experience |
| Salary.ExperienceBonusProperties | server/routes/salary.ts:75 | the bonus is at most 300000, non-negative for non-negative experience, monotone, and 300000 from six years on |
| Salary.MinSalary | server/routes/salary.ts:78-83 | round(base min · multiplier + 0.3 · skill bonus + 0.2 · experience bonus); `MinAtMostMax` compares it with the maximum |
| Salary.MaxSalary | server/routes/salary.ts:78-86 | round(base max · multiplier + 0.5 · skill bonus + 0.4 · experience bonus) |
| Salary.AverageSalary | server/routes/salary.ts:87 | the rounded midpoint; `AverageBetween` keeps it between the ends |
| Salary.MinAtMostMax | server/routes/salary.ts:78-86 | with a non-negative experience bonus the minimum never exceeds the maximum |
| Salary.AverageBetween | server/routes/salary.ts:87 | the rounded midpoint lies between the two ends |
| Salary.MarketTrend | server/routes/salary.ts:89-95 | one of three labels; "Rising rapidly" iff the lowercased role contains "ai" or "ml"; "Rising" iff not that but "devops" |
| Salary.Factors | server/routes/salary.ts:103-108 | the four template lines: skill count, years, location, role |
| Salary.Rejected | server/routes/salary.ts:52 | the falsy-field test: an absent field, experience 0 or an empty string; an empty skill list passes |
| Salary.PredictSalary | server/routes/salary.ts:48-112 | 400 "Missing required fields" iff skills or experience absent, experience 0, or location or role empty; otherwise currency "INR", four factors, the role's trend, and min ≤ average ≤ max for positive experience |
| Salary.AddingSkillNeverLowers | server/routes/salary.ts:69-86 | adding a skill at any position never lowers the minimum or the maximum |
| Salary.ExperienceMonotone | server/routes/salary.ts:75-86 | more experience never lowers either figure, and from six years on nothing changes |
| Salary.FallbackPrediction | server/routes/salary.ts:60-86 | when every lookup misses, min = round(400000 + 6000·n + 0.2·bonus) and max = round(800000 + 10000·n + 0.4·bonus) |
| Salary.FallbackExample | server/routes/salary.ts:60-87 | one unlisted skill, unlisted role and location, two years: 426000 to 850000, average 638000 |
| Salary.NegativeExperienceInvertsRange | server/routes/salary.ts:52-86 | experience -100 with no skills is accepted and gives min -600000 above max -1200000 |
| Salary.UnlistedRole | server/routes/salary.ts:60-61 | "QA" normalises to "qa", which is not listed |
| Salary.SlashedRoleFallsBack | server/routes/salary.ts:60-61 | "UI/UX Designer" normalises to "ui/ux-designer", not the listed "ui-ux-designer", and gets the fallback range |
| Salary.UnlistedLocation | server/routes/salary.ts:64-66 | "Pune" is not listed: multiplier 1.0 |
| Salary.DottedSkillFallsBack | server/routes/salary.ts:70-71 | "Node.js" normalises to "node.js", not "nodejs": bonus 20000 |
| Salary.DottedSkillKey | server/routes/salary.ts:70-71 | "Node.js" normalises to "node.js": the dot stays |
| Salary.MlRoleRisingRapidly | server/routes/salary.ts:90-95 | "ML Engineer" is "Rising rapidly" |
| Salary.DevOpsRoleRising | server/routes/salary.ts:90-95 | "DevOps Engineer" is "Rising" |
| Salary.SpelledOutMachineLearningStable | server/routes/salary.ts:90-95 | "Machine Learning Engineer" is "Stable" |
| Salary.FrontendStable | server/routes/salary.ts:90-95 | "Frontend Developer" is "Stable" |
| Jobs.MockJobs | server/routes/jobs.ts:4-94 | the eight postings, field for field |
| Jobs.MockJobIdsDistinct | server/routes/jobs.ts:4-94 | the eight postings have distinct ids |
| Jobs.Matches | server/routes/jobs.ts:104-111 | title, company, location or some requirement, lowercased, contains the search text |
| Jobs.SomeRequirementMatches | server/routes/jobs.ts:110 | `requirements.some(...)`: some requirement, lowercased, contains the search text; `Search` keeps exactly the postings `Matches` accepts |
| Jobs.Search | server/routes/jobs.ts:104-111 | an order-preserving subsequence holding exactly the postings whose title, company, location or some requirement contains the search text |
| Jobs.Filtered | server/routes/jobs.ts:101-112 | all postings for an empty search, otherwise the search over them; `FilteredIsSearch` shows the shortcut changes nothing |
| Jobs.EmptySearchKeepsAll | server/routes/jobs.ts:101-112 | an empty search text drops nothing |
| Jobs.FilteredIsSearch | server/routes/jobs.ts:101-112 | skipping the filter for an empty search gives the same list as filtering |
| Jobs.SearchIgnoresCase | server/routes/jobs.ts:103-111 | search texts differing only in letter case find the same postings |
| Jobs.OrDefault | server/routes/jobs.ts:97-98 | the result is the parsed number or the fallback; a non-zero fallback never yields 0; a parsed number is replaced exactly when it is 0; `DefaultQueryListsAll` |
| Jobs.SliceIndex | server/routes/jobs.ts:116 | a resolved index lies in [0, length]; an in-range index is itself; a negative one within reach counts back from the end |
| Jobs.JsSlice | server/routes/jobs.ts:116 | `slice(start, end)` is a subsequence no longer than the list; for 0 ≤ start ≤ end ≤ length it is the plain run; empty from the end on or when 0 ≤ end ≤ start; `RunBounds` and `PageBounds` describe the runs paging uses |
| Jobs.Page | server/routes/jobs.ts:114-116 | `slice((page - 1) * limit, (page - 1) * limit + limit)`; `PageBounds` and `FirstPagesArePrefix` state what it yields |
| Jobs.RunBounds | server/routes/jobs.ts:116 | a run of `limit` items from a non-negative start holds at most `limit` items, is empty past the end, and is the clamped run otherwise |
| Jobs.PageBounds | server/routes/jobs.ts:114-116 | for page, limit ≥ 1: at most `limit` postings, the run from (page−1)·limit to min(page·limit, total), empty past the end |
| Jobs.FirstPagesArePrefix | server/routes/jobs.ts:114-116 | pages 1..k put together are the first min(k·limit, total) postings |
| Jobs.AllPagesCoverList | server/routes/jobs.ts:114-116 | enough pages put together give the whole list |
| Jobs.JobsList | server/routes/jobs.ts:96-126 | page and limit are never 0 and are either the query's or 1 and 10; total is the number of matching postings; jobs is a subsequence of them, at most `limit` for positive page and limit; `WalkingPagesListsEverything` ties the pages to the whole list |
| Jobs.JobsListSound | server/routes/jobs.ts:101-122 | every listed job is a matching posting, order is kept, and at most `limit` are listed |
| Jobs.PageIsSubsequence | server/routes/jobs.ts:114-116 | any page of a list is an order-preserving subsequence of it holding at most `limit` items |
| Jobs.TotalIndependentOfPaging | server/routes/jobs.ts:120 | the total depends only on the search text, and is 8 for an empty one |
| Jobs.WalkingPagesListsEverything | server/routes/jobs.ts:114-122 | reading pages 1 to ⌈total/limit⌉ with one search and limit yields every filtered posting once, in order |
| Jobs.DefaultQueryListsAll | server/routes/jobs.ts:97-122 | an empty query lists all eight postings on page 1 of size 10 |
| Jobs.FindById | server/routes/jobs.ts:130 | nothing iff no posting has the id; otherwise the first posting with that id |
| Jobs.JobDetail | server/routes/jobs.ts:128-140 | 404 "Job not found" iff no posting has the id; otherwise a posting with that id |
| Jobs.DetailFindsEachPosting | server/routes/jobs.ts:128-140 | each posting is returned for its own id |
| Jobs.FindByDistinctId | server/routes/jobs.ts:130 | in a list with distinct ids each item is found by its own id |
| Jobs.ListedJobsHaveDetail | server/routes/jobs.ts:96-140 | any listed job opens by its id |
| Auth.Set | server/routes/auth.ts:44 | `Map.set`: the value is replaced; a new key goes last, an existing key keeps its place |
| Auth.Values | server/routes/auth.ts:31 | one entry per stored user, and every stored user appears; `ValuesMembers` gives the converse |
| Auth.KeysCount | server/routes/auth.ts:31 | a map's distinct insertion-ordered keys number as many as its entries |
| Auth.ValuesMembers | server/routes/auth.ts:31 | the values are exactly the stored users |
| Auth.UserKey | server/routes/auth.ts:35 | `user_<now>` holds no space and is never empty |
| Auth.Token | server/routes/auth.ts:16-18 | `generateToken`: longer than the id, and space-free when the id is; `TokenInjective` shows it determines id and clock |
| Auth.NewUser | server/routes/auth.ts:35-43 | the user created at two clock readings: id `user_<now>` and a token from that id |
| Auth.Welcome | server/routes/auth.ts:52-61 | the success body: id, name, email and token of the user, never the password; `LoginReplies`, `RegisterReplies` and `AuthCheck` say when it is sent |
| Auth.ValidTable | server/routes/auth.ts:10-13 | the table invariant: each user is stored under its own id of the form `user_<clock>`, holds a token made from that id, and no two users share an address |
| Auth.TokenInjective | server/routes/auth.ts:16-18 | a token determines its user id and clock reading |
| Auth.EmptyMapValid | server/routes/auth.ts:10-13 | the empty table satisfies the table invariant |
| Auth.TokensDistinct | server/routes/auth.ts:128 | in a valid table no two users share a token |
| Auth.FindByEmail | server/routes/auth.ts:31 | nothing iff no user has the address; otherwise the first user in insertion order with it |
| Auth.FindByToken | server/routes/auth.ts:128 | nothing iff no user has the token; otherwise the first user in insertion order with it |
| Auth.FindEmailUnique | server/routes/auth.ts:31 | in a valid table the search by address finds the one user with it |
| Auth.FindTokenUnique | server/routes/auth.ts:128 | in a valid table the search by token finds the one user with it |
| Auth.NameFromEmail | server/routes/auth.ts:39 | the name is the prefix of the address before the first "@", or the whole address |
| Auth.Login | server/routes/auth.ts:20-64 | 400 iff email or password empty; errors are 400 or 401 and leave the table unchanged |
| Auth.Register | server/routes/auth.ts:66-116 | fails iff a field is empty, the passwords differ, or the address is stored; failures leave the table unchanged |
| Auth.BearerToken | server/routes/auth.ts:119-125 | a token read from the header is non-empty and holds no space |
| Auth.AuthCheck | server/routes/auth.ts:118-146 | no token: unauthenticated; otherwise authenticated iff some stored user holds the token, with that user's id, name and e-mail |
| Auth.AddUserValid | server/routes/auth.ts:92-102 | storing a user with an unknown address, an id `user_<clock>` and a token made from that id keeps the table valid, even when the id replaces an entry |
| Auth.LoginPreservesValid | server/routes/auth.ts:31-44 | login keeps ids matching keys, well-formed tokens and unique addresses |
| Auth.RegisterPreservesValid | server/routes/auth.ts:85-102 | registration keeps ids matching keys, well-formed tokens and unique addresses |
| Auth.LoginReplies | server/routes/auth.ts:31-63 | 401 iff the address is stored with another password; the right password returns the stored user unchanged; an unknown address adds `user_<now>` named after the part before "@" |
| Auth.RegisterReplies | server/routes/auth.ts:70-115 | the first failing check decides the error (400, 400, 409); success stores the new user under `user_<now>` only |
| Auth.RegisterThenLogin | server/routes/auth.ts:31-63 | logging in after registering, with the same address and password, returns the registered user and changes nothing |
| Auth.RegisterTwiceConflicts | server/routes/auth.ts:85-90 | registering the same request again gives 409 |
| Auth.TokenHasNoSpace | server/routes/auth.ts:16-18 | generated tokens are non-empty and hold no space |
| Auth.BearerRoundTrip | server/routes/auth.ts:119 | "Bearer " followed by a space-free token yields that token |
| Auth.BearerSecondField | server/routes/auth.ts:119-125 | for any header `x + " " + t + rest` with `x` and `t` space-free and `rest` empty or starting with a space, the token is `t`, or none when `t` is empty |
| Auth.NoTokenWithoutSpace | server/routes/auth.ts:119-125 | a header with no space, or nothing after its only space, carries no token |
| Auth.RegisterThenAuthCheck | server/routes/auth.ts:118-146 | the token a registration returns authenticates the new user |
| Auth.LoginThenAuthCheck | server/routes/auth.ts:118-146 | in a valid table the token a successful login returns authenticates the user it names, new or stored |
| Auth.StoredTokenAuthenticates | server/routes/auth.ts:118-146 | in a valid table the bearer token of any stored user authenticates exactly that user |
| Auth.SameMillisecondOverwrites | server/routes/auth.ts:92-102 | a second sign-up at the same clock reading replaces the first user, whose address is then unknown |
| Auth.ReplaceDropsEmail | server/routes/auth.ts:44 | replacing the only user with an address by a user with another address leaves no user with the first address |
| Auth.UserStore.constructor | server/routes/auth.ts:10-13 | the table starts empty and valid |
| Auth.UserStore.FindEmail | server/routes/auth.ts:31 | the loop over the keys finds what `FindByEmail` finds |
| Auth.UserStore.FindToken | server/routes/auth.ts:128 | the loop over the keys finds what `FindByToken` finds |
| Auth.UserStore.HandleLogin | server/routes/auth.ts:20-64 | the new table and the reply are those of `Login`, and the table stays valid |
| Auth.UserStore.HandleRegister | server/routes/auth.ts:66-116 | the new table and the reply are those of `Register`, and the table stays valid |
| Auth.UserStore.HandleAuthCheck | server/routes/auth.ts:118-146 | the answer is `AuthCheck` of the current table; nothing changes |

## Left out

- Express plumbing (`req`, `res`, `res.status().json()`, `server/index.ts`): requests and replies are plain datatypes.
- `Date.now()`: each reading is a parameter. Real time and collisions across processes are not modelled.
- `JSON.stringify` in resume save: the stored value is the already serialised text.
- IEEE-754 doubles: salary and ATS arithmetic is exact rational arithmetic, so rounding errors of doubles are not modelled.
- `toLowerCase` beyond ASCII: only `A`–`Z` are lowercased.
- `parseInt` partial parsing (such as "2abc" giving 2): the query holds the parsed number, or `None` for `NaN`.
- Values of the wrong JSON type, such as a string `experience`, a non-array `skills` or a fractional `experience`: the request fields have fixed types, and experience is an integer.
- Prototype-chain hits in the table lookups (a role named "constructor"): only the listed keys are found.
- Passwords are stored and compared in plain text, as in the code. Their security is not a verification target.
- The client pages and components: React rendering, routing, `fetch` and `localStorage`.
- `shared/api.ts`: its interfaces are mirrored in the `Api` module. It has no behaviour.
