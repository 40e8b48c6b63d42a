/** The job board (server/routes/jobs.ts): a fixed list of eight postings,
    a case-insensitive search, page-based slicing and lookup by id. */
module Jobs {
  import opened Api
  import opened Text

  // ---------------------------------------------------------------------------
  // The postings
  // ---------------------------------------------------------------------------

  const MockJobs: seq<Job> := [
    Job("1", "Frontend Developer", "Tech Startup", "Remote", "6-10 LPA",
        "Looking for a talented frontend developer to build beautiful and responsive UIs.",
        ["React", "TypeScript", "Tailwind CSS", "REST APIs"], "2024-01-15", 245),
    Job("2", "Full Stack Engineer", "SaaS Company", "Bangalore", "8-12 LPA",
        "Build scalable web applications with our full stack team.",
        ["Node.js", "React", "PostgreSQL", "AWS"], "2024-01-14", 189),
    Job("3", "Data Analyst", "FinTech Firm", "Mumbai", "5-8 LPA",
        "Analyze data and create insights for financial products.",
        ["Python", "SQL", "Data Visualization", "Statistics"], "2024-01-13", 156),
    Job("4", "Backend Engineer", "Cloud Services", "Hyderabad", "7-11 LPA",
        "Develop robust backend services for cloud infrastructure.",
        ["Python", "AWS", "Docker", "Kubernetes"], "2024-01-12", 203),
    Job("5", "Mobile Developer", "Mobile-First Startup", "Remote", "6-9 LPA",
        "Create amazing mobile experiences with React Native.",
        ["React Native", "JavaScript", "Firebase", "UI/UX"], "2024-01-11", 178),
    Job("6", "DevOps Engineer", "Infrastructure Co", "Delhi", "8-13 LPA",
        "Manage and optimize our cloud infrastructure.",
        ["Docker", "Kubernetes", "CI/CD", "Linux"], "2024-01-10", 124),
    Job("7", "QA Engineer", "Quality First Inc", "Pune", "4-7 LPA",
        "Ensure quality through comprehensive testing strategies.",
        ["Selenium", "Python", "JIRA", "Test Automation"], "2024-01-09", 167),
    Job("8", "UI/UX Designer", "Design Studio", "Remote", "5-9 LPA",
        "Design beautiful and user-friendly interfaces.",
        ["Figma", "UI Design", "User Research", "Prototyping"], "2024-01-08", 134)
  ]

  /** The ids of the postings are distinct. */
  lemma MockJobIdsDistinct()
    ensures forall i, j :: 0 <= i < j < |MockJobs| ==> MockJobs[i].id != MockJobs[j].id
  {
  }

  // ---------------------------------------------------------------------------
  // Search
  // ---------------------------------------------------------------------------

  /** Some requirement of the list contains `searchLower` once lowercased
      (`requirements.some(...)`). */
  predicate SomeRequirementMatches(requirements: seq<string>, searchLower: string) {
    exists i :: 0 <= i < |requirements| && Contains(Lower(requirements[i]), searchLower)
  }

  /** A posting is found when its title, company, location or one of its
      requirements contains the lowercased search text; the description,
      salary and date are not searched. */
  predicate Matches(job: Job, searchLower: string) {
    || Contains(Lower(job.title), searchLower)
    || Contains(Lower(job.company), searchLower)
    || Contains(Lower(job.location), searchLower)
    || SomeRequirementMatches(job.requirements, searchLower)
  }

  /** The postings of `jobs` that match, in their order. */
  function Search(jobs: seq<Job>, searchLower: string): (r: seq<Job>)
    ensures |r| <= |jobs|
    ensures IsSubsequence(r, jobs)
    ensures forall j :: j in r <==> j in jobs && Matches(j, searchLower)
    decreases |jobs|
  {
    if jobs == [] then []
    else
      var rest := Search(jobs[1..], searchLower);
      if Matches(jobs[0], searchLower) then [jobs[0]] + rest else rest
  }

  /** An empty search text is contained in every field, so nothing is
      dropped. */
  lemma {:induction false} EmptySearchKeepsAll(jobs: seq<Job>)
    ensures Search(jobs, "") == jobs
    decreases |jobs|
  {
    if jobs != [] {
      ContainsEmpty(Lower(jobs[0].title));
      EmptySearchKeepsAll(jobs[1..]);
    }
  }

  /** `filteredJobs`: every posting when the search text is empty, otherwise
      the matching ones. */
  function Filtered(search: string): seq<Job> {
    if search == "" then MockJobs else Search(MockJobs, Lower(search))
  }

  /** Skipping the filter for an empty search changes nothing: the result is
      always the plain search. */
  lemma FilteredIsSearch(search: string)
    ensures Filtered(search) == Search(MockJobs, Lower(search))
  {
    if search == "" {
      EmptySearchKeepsAll(MockJobs);
    }
  }

  /** Searching ignores the case of the search text. */
  lemma SearchIgnoresCase(a: string, b: string)
    requires SameIgnoringCase(a, b)
    ensures Filtered(a) == Filtered(b)
  {
    FilteredIsSearch(a);
    FilteredIsSearch(b);
    LowerOfSameIgnoringCase(a, b);
  }

  // ---------------------------------------------------------------------------
  // Paging
  // ---------------------------------------------------------------------------

  /** `parseInt(x) || fallback`: an absent or unparsable value (`NaN`) and
      0 both give the fallback. */
  function OrDefault(parsed: Option<int>, fallback: int): (n: int)
    ensures n == fallback || parsed == Some(n)
    ensures fallback != 0 ==> n != 0
    ensures parsed.Some? && parsed.value != fallback ==> (n == fallback <==> parsed.value == 0)
  {
    if parsed.None? || parsed.value == 0 then fallback else parsed.value
  }

  /** How `Array.prototype.slice` resolves one index: negative counts from
      the end, and the result is clamped to [0, length]. */
  function SliceIndex(index: int, length: nat): (k: nat)
    ensures k <= length
    ensures 0 <= index <= length ==> k == index
    ensures index < 0 && length + index >= 0 ==> k == length + index
  {
    if index < 0 then (if length + index < 0 then 0 else length + index)
    else if index > length then length
    else index
  }

  /** `s.slice(start, end)`. */
  function JsSlice<T>(s: seq<T>, start: int, end: int): (r: seq<T>)
    ensures |r| <= |s| && IsSubsequence(r, s)
    ensures 0 <= start <= end <= |s| ==> r == s[start..end]
    ensures start >= |s| || 0 <= end <= start ==> r == []
  {
    var i, j := SliceIndex(start, |s|), SliceIndex(end, |s|);
    if i < j then SliceIsSubsequence(s, i, j); s[i..j] else []
  }

  /** The `page`-th run of `limit` elements, as the handler computes it. */
  function Page<T>(s: seq<T>, page: int, limit: int): seq<T> {
    JsSlice(s, (page - 1) * limit, (page - 1) * limit + limit)
  }

  /** A run of `limit` elements from a non-negative start. */
  lemma RunBounds<T>(s: seq<T>, start: int, limit: int)
    requires start >= 0 && limit >= 1
    ensures |JsSlice(s, start, start + limit)| <= limit
    ensures start >= |s| ==> JsSlice(s, start, start + limit) == []
    ensures start < |s| ==>
      JsSlice(s, start, start + limit) == s[start..if start + limit < |s| then start + limit else |s|]
  {
  }

  /** For positive page and limit, a page holds at most `limit` elements,
      is the run of `s` starting at `(page - 1) * limit`, and is empty past
      the end. */
  lemma PageBounds<T>(s: seq<T>, page: int, limit: int)
    requires page >= 1 && limit >= 1
    ensures var start := (page - 1) * limit;
      && |Page(s, page, limit)| <= limit
      && (start >= |s| ==> Page(s, page, limit) == [])
      && (start < |s| ==>
            Page(s, page, limit) == s[start..if start + limit < |s| then start + limit else |s|])
  {
    var start := (page - 1) * limit;
    NonNegativeProduct(page - 1, limit);
    assert Page(s, page, limit) == JsSlice(s, start, start + limit);
    RunBounds(s, start, limit);
  }

  lemma NonNegativeProduct(a: int, b: int)
    requires a >= 0 && b >= 0
    ensures a * b >= 0
  {
  }

  lemma NextPageStart(count: int, limit: int)
    ensures (count - 1) * limit + limit == count * limit
  {
  }

  /** Pages 1 to `count` put together, in order. */
  function FirstPages<T>(s: seq<T>, limit: int, count: nat): seq<T> {
    if count == 0 then [] else FirstPages(s, limit, count - 1) + Page(s, count, limit)
  }

  /** Reading pages 1, 2, ... in turn yields the list in order, with
      nothing skipped or repeated. */
  lemma {:induction false} FirstPagesArePrefix<T>(s: seq<T>, limit: int, count: nat)
    requires limit >= 1
    ensures FirstPages(s, limit, count) == s[..if count * limit < |s| then count * limit else |s|]
  {
    if count > 0 {
      var start := (count - 1) * limit;
      var stop := count * limit;
      NonNegativeProduct(count - 1, limit);
      NextPageStart(count, limit);
      FirstPagesArePrefix(s, limit, count - 1);
      assert Page(s, count, limit) == JsSlice(s, start, start + limit);
      RunBounds(s, start, limit);
      var before := if start < |s| then start else |s|;
      var after := if stop < |s| then stop else |s|;
      if start < |s| {
        assert s[..before] + s[before..after] == s[..after];
      } else {
        assert before == after;
      }
    }
  }

  /** Enough pages cover the whole list. */
  lemma AllPagesCoverList<T>(s: seq<T>, limit: int, count: nat)
    requires limit >= 1 && count * limit >= |s|
    ensures FirstPages(s, limit, count) == s
  {
    FirstPagesArePrefix(s, limit, count);
  }

  // ---------------------------------------------------------------------------
  // The handlers
  // ---------------------------------------------------------------------------

  /** The query: `page` and `limit` as `parseInt` read them (`None` for an
      absent or unparsable value), and the search text (`""` when absent). */
  datatype JobsQuery = JobsQuery(page: Option<int>, limit: Option<int>, search: string)

  /** What `handleJobsList` answers. */
  function JobsList(q: JobsQuery): (r: JobsListResponse)
    ensures r.page != 0 && r.limit != 0
    ensures q.page == Some(r.page) || r.page == 1
    ensures q.limit == Some(r.limit) || r.limit == 10
    ensures r.total == |Search(MockJobs, Lower(q.search))|
    ensures IsSubsequence(r.jobs, Search(MockJobs, Lower(q.search)))
    ensures r.page >= 1 && r.limit >= 1 ==> |r.jobs| <= r.limit
  {
    var page := OrDefault(q.page, 1);
    var limit := OrDefault(q.limit, 10);
    var filtered := Filtered(q.search);
    FilteredIsSearch(q.search);
    PageIsSubsequence(filtered, page, limit);
    JobsListResponse(Page(filtered, page, limit), |filtered|, page, limit)
  }

  /** A page is a subsequence of the list it is cut from, and for
      positive page and limit it holds at most `limit` elements. */
  lemma PageIsSubsequence<T>(s: seq<T>, page: int, limit: int)
    ensures IsSubsequence(Page(s, page, limit), s)
    ensures forall x :: x in Page(s, page, limit) ==> x in s
    ensures page >= 1 && limit >= 1 ==> |Page(s, page, limit)| <= limit
  {
    var i, j := SliceIndex((page - 1) * limit, |s|), SliceIndex((page - 1) * limit + limit, |s|);
    if i < j {
      SliceIsSubsequence(s, i, j);
    }
    if page >= 1 && limit >= 1 {
      PageBounds(s, page, limit);
    }
  }

  /** Every listed job is a posting that matches the search, the listing
      keeps the postings' order, and for positive page and limit it holds
      at most `limit` jobs. */
  lemma JobsListSound(q: JobsQuery)
    ensures var r := JobsList(q);
      && IsSubsequence(r.jobs, Filtered(q.search))
      && (forall j :: j in r.jobs ==> j in MockJobs && Matches(j, Lower(q.search)))
      && (r.page >= 1 && r.limit >= 1 ==> |r.jobs| <= r.limit)
  {
    var r := JobsList(q);
    FilteredIsSearch(q.search);
    PageIsSubsequence(Filtered(q.search), r.page, r.limit);
  }

  /** With no query at all the first page holds all eight postings. */
  lemma DefaultQueryListsAll()
    ensures JobsList(JobsQuery(None, None, "")) == JobsListResponse(MockJobs, 8, 1, 10)
  {
    assert MockJobs[0..8] == MockJobs;
  }

  /** A slice is a subsequence. */
  lemma {:induction false} SliceIsSubsequence<T>(s: seq<T>, i: nat, j: nat)
    requires i <= j <= |s|
    ensures IsSubsequence(s[i..j], s)
    decreases |s|
  {
    if i == j {
    } else if i > 0 {
      assert s[i..j] == s[1..][i - 1..j - 1];
      SliceIsSubsequence(s[1..], i - 1, j - 1);
    } else {
      assert s[i..j][1..] == s[1..][0..j - 1];
      SliceIsSubsequence(s[1..], 0, j - 1);
    }
  }

  /** The total depends only on the search text, never on the page or the
      limit, and with no search text all eight postings are counted. */
  lemma TotalIndependentOfPaging(q1: JobsQuery, q2: JobsQuery)
    requires q1.search == q2.search
    ensures JobsList(q1).total == JobsList(q2).total
    ensures q1.search == "" ==> JobsList(q1).total == 8
  {
  }

  /** Walking the pages of a listing from 1 up to the last one, with the
      same search and limit, yields exactly the filtered postings. */
  lemma WalkingPagesListsEverything(search: string, limit: int, pages: nat)
    requires limit >= 1 && pages * limit >= |Filtered(search)|
    ensures FirstPages(Filtered(search), limit, pages) == Filtered(search)
    ensures forall p :: 1 <= p <= pages ==>
      JobsList(JobsQuery(Some(p), Some(limit), search)).jobs == Page(Filtered(search), p, limit)
  {
    AllPagesCoverList(Filtered(search), limit, pages);
  }

  /** `mockJobs.find(j => j.id === id)`: the first posting with that id. */
  function FindById(jobs: seq<Job>, id: string): (r: Option<Job>)
    ensures r.None? <==> forall j :: j in jobs ==> j.id != id
    ensures r.Some? ==> r.value in jobs && r.value.id == id
    ensures r.Some? ==> exists i :: 0 <= i < |jobs| && jobs[i] == r.value &&
                          forall k :: 0 <= k < i ==> jobs[k].id != id
    decreases |jobs|
  {
    if jobs == [] then None
    else if jobs[0].id == id then Some(jobs[0])
    else FindById(jobs[1..], id)
  }

  /** What `handleJobDetail` answers: the posting, or 404. */
  function JobDetail(id: string): (r: Reply<Job>)
    ensures r.Fail? <==> forall j :: j in MockJobs ==> j.id != id
    ensures r.Fail? ==> r == Fail(404, "Job not found")
    ensures r.Ok? ==> r.body in MockJobs && r.body.id == id
  {
    match FindById(MockJobs, id)
    case None => Fail(404, "Job not found")
    case Some(job) => Ok(job)
  }

  /** Since ids are distinct, each posting is found under its own id. */
  lemma DetailFindsEachPosting(i: nat)
    requires i < |MockJobs|
    ensures JobDetail(MockJobs[i].id) == Ok(MockJobs[i])
  {
    MockJobIdsDistinct();
    FindByDistinctId(MockJobs, i);
  }

  /** With distinct ids, looking up an element's id finds that element. */
  lemma FindByDistinctId(jobs: seq<Job>, i: nat)
    requires i < |jobs|
    requires forall a, b :: 0 <= a < b < |jobs| ==> jobs[a].id != jobs[b].id
    ensures FindById(jobs, jobs[i].id) == Some(jobs[i])
  {
    var r := FindById(jobs, jobs[i].id);
    assert r.Some?;
    var k :| 0 <= k < |jobs| && jobs[k] == r.value && forall k' :: 0 <= k' < k ==> jobs[k'].id != jobs[i].id;
  }

  /** A listed job can be opened by its id. */
  lemma ListedJobsHaveDetail(q: JobsQuery, job: Job)
    requires job in JobsList(q).jobs
    ensures JobDetail(job.id) == Ok(job)
  {
    JobsListSound(q);
    var i :| 0 <= i < |MockJobs| && MockJobs[i] == job;
    DetailFindsEachPosting(i);
  }
}
