/** Request and response shapes shared between client and server
    (shared/api.ts), and the two ways a handler answers: a JSON body with
    status 200, or an error status with `{ success: false, message }`. */
module Api {

  datatype Option<T> = None | Some(value: T)

  /** What a route handler sends back. */
  datatype Reply<T> =
    | Ok(body: T)
    | Fail(status: nat, message: string)

  // Auth

  datatype LoginRequest = LoginRequest(email: string, password: string)

  datatype RegisterRequest = RegisterRequest(
    name: string, email: string, password: string, confirmPassword: string)

  datatype SessionUser = SessionUser(id: string, name: string, email: string, token: string)

  datatype LoginResponse = LoginResponse(success: bool, message: string, user: Option<SessionUser>)

  datatype PublicUser = PublicUser(id: string, name: string, email: string)

  datatype AuthCheckResponse = AuthCheckResponse(authenticated: bool, user: Option<PublicUser>)

  // Salary predictor

  /** A field that is absent from the JSON body is `None`; an absent or empty
      string field is `""`. */
  datatype SalaryPredictionRequest = SalaryPredictionRequest(
    skills: Option<seq<string>>, experience: Option<int>, location: string, role: string)

  datatype SalaryPredictionResponse = SalaryPredictionResponse(
    minSalary: int, maxSalary: int, averageSalary: int,
    currency: string, marketTrend: string, factors: seq<string>)

  // Jobs

  datatype Job = Job(
    id: string, title: string, company: string, location: string, salary: string,
    description: string, requirements: seq<string>, postedDate: string, applicants: nat)

  datatype JobsListResponse = JobsListResponse(jobs: seq<Job>, total: nat, page: int, limit: int)

  // Resume

  /** `resumeData` stands for the already serialised JSON text; `None` is an
      absent or falsy value. */
  datatype ResumeSaveRequest = ResumeSaveRequest(resumeData: Option<string>, userId: string)

  datatype ResumeSaveResponse = ResumeSaveResponse(success: bool, message: string, resumeId: string)

  datatype ATSScoreRequest = ATSScoreRequest(resumeText: string, jobDescription: string)

  datatype ATSScoreResponse = ATSScoreResponse(
    score: int, maxScore: int, percentage: int, recommendations: seq<string>,
    matchedKeywords: seq<string>, missingKeywords: seq<string>)
}
