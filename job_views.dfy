/**
 * The job board's views: a recruiter posts jobs and reviews applications, a
 * student uploads a CV, searches the open jobs and applies. Views that write to
 * the database are methods on the store; views that only read it are functions.
 * `now` stands for `timezone.now()` and `session` for the signed-in account id.
 */
module JobViews {
  import opened Wrappers
  import opened Text
  import opened Collections
  import opened Web
  import opened CvFiles
  import opened AuthModels
  import opened Decorators
  import opened JobModels
  import opened JobForms
  import opened Store

  // ---------------------------------------------------------------- upload_cv

  datatype UploadOutcome =
    | UploadLoginRedirect
    /** Saved; redirects to the student dashboard. */
    | CvUploaded
    /** The upload page, with the validation error of a rejected POST. */
    | UploadFormShown(error: Option<CvError>)

  /**
   * `upload_cv`: a student's POST replaces the CV on their profile once
   * CVUploadForm accepts it. The approval flag is not part of that form and
   * is left as it was.
   */
  method UploadCv(db: Database, session: Option<nat>, m: Method, upload: CvFile) returns (r: UploadOutcome)
    requires db.Valid()
    modifies db
    ensures db.Valid()
    ensures db.users == old(db.users) && db.recruiters == old(db.recruiters)
    ensures db.jobs == old(db.jobs) && db.applications == old(db.applications)
    ensures r.UploadLoginRedirect? <==> StudentRequired(db.Identify(session)).Some?
    ensures r.CvUploaded? <==>
      && StudentRequired(db.Identify(session)) == None
      && m == Post
      && ValidateUploadCv(upload, old(db.students)[session.value].cv).Ok?
    ensures r.CvUploaded? ==>
      var old_ := old(db.students)[session.value];
      db.students == old(db.students)[session.value := old_.(cv := SavedFile(upload, old_.cv))]
    ensures !r.CvUploaded? ==> db.students == old(db.students)
    ensures r.UploadFormShown? && m == Get ==> r.error == None
    ensures r.UploadFormShown? && m == Post ==>
      r.error == Some(ValidateUploadCv(upload, old(db.students)[session.value].cv).error)
  {
    var v := db.Identify(session);
    if StudentRequired(v).Some? {
      return UploadLoginRedirect;
    }
    assert v.id in db.students;
    if m == Get {
      return UploadFormShown(None);
    }
    var profile := db.students[v.id];
    var cleaned := ValidateUploadCv(upload, profile.cv);
    if cleaned.Err? {
      return UploadFormShown(Some(cleaned.error));
    }
    db.SaveStudent(v.id, profile.(cv := SavedFile(upload, profile.cv)));
    r := CvUploaded;
  }

  // --------------------------------------------------------------- create_job

  datatype CreateJobOutcome =
    | CreateJobLoginRedirect
    /** Saved; redirects to the recruiter dashboard. */
    | JobPosted
    /** The form page: blank on GET, with the invalid fields on a rejected POST. */
    | JobFormShown(errors: set<JobField>)

  /** `create_job`: a recruiter's valid POST adds one job owned by that recruiter. */
  method CreateJob(db: Database, session: Option<nat>, m: Method, input: JobInput, now: int) returns (r: CreateJobOutcome)
    requires db.Valid()
    modifies db
    ensures db.Valid()
    ensures db.users == old(db.users) && db.students == old(db.students) && db.recruiters == old(db.recruiters)
    ensures db.applications == old(db.applications)
    ensures r.CreateJobLoginRedirect? <==> RecruiterRequired(db.Identify(session)).Some?
    ensures r.JobPosted? <==> RecruiterRequired(db.Identify(session)) == None && m == Post && CleanJobForm(input, now).Ok?
    ensures r.JobPosted? ==> db.jobs == old(db.jobs) + [NewJob(CleanJobForm(input, now).value, session.value, now)]
    ensures !r.JobPosted? ==> db.jobs == old(db.jobs)
    ensures r.JobFormShown? ==> r.errors == if m == Post then JobErrors(input, now) else {}
  {
    var v := db.Identify(session);
    if RecruiterRequired(v).Some? {
      return CreateJobLoginRedirect;
    }
    if m == Get {
      return JobFormShown({});
    }
    var cleaned := CleanJobForm(input, now);
    if cleaned.Err? {
      return JobFormShown(cleaned.error);
    }
    assert v.id in db.recruiters;
    db.AddJob(NewJob(cleaned.value, v.id, now));
    r := JobPosted;
  }

  // --------------------------------------------------------------- search_job

  /** The base queryset: active jobs whose deadline is still strictly ahead. */
  predicate OpenForSearch(j: Job, now: int) {
    j.isActive && j.lastDate > now
  }

  /** The company name of the job's recruiter; every job has a recruiter in a well-formed store. */
  function CompanyOf(recruiters: map<nat, RecruiterProfile>, j: Job): string {
    if j.recruiter in recruiters then recruiters[j.recruiter].companyName else ""
  }

  /** The text search: the title, position, description or company name contains the query, ignoring case. */
  predicate MatchesSearch(j: Job, company: string, query: string) {
    || ContainsIgnoreCase(j.title, query)
    || ContainsIgnoreCase(j.position, query)
    || ContainsIgnoreCase(j.description, query)
    || ContainsIgnoreCase(company, query)
  }

  /** The GET parameters of the search page; `page` is None when missing or not an integer. */
  datatype SearchQuery = SearchQuery(search: string, location: string, selectionType: string, page: Option<int>)

  /** Whether job `i` is in the filtered queryset; an empty parameter filters nothing. */
  predicate Selects(jobs: seq<Job>, recruiters: map<nat, RecruiterProfile>, q: SearchQuery, now: int, i: nat)
    requires i < |jobs|
  {
    && OpenForSearch(jobs[i], now)
    && (q.search != "" ==> MatchesSearch(jobs[i], CompanyOf(recruiters, jobs[i]), q.search))
    && (q.location != "" ==> jobs[i].location == q.location)
    && (q.selectionType != "" ==> SelectionTypeValue(jobs[i].selectionType) == q.selectionType)
  }

  /** The jobs search starts from: active, with a deadline strictly after now, listed in id order. */
  function OpenJobs(jobs: seq<Job>, now: int): (r: seq<nat>)
    ensures forall i: nat :: i in r <==> i < |jobs| && OpenForSearch(jobs[i], now)
    ensures Increasing(r)
  {
    var isOpen := (i: nat) => i < |jobs| && OpenForSearch(jobs[i], now);
    RangeIncreasing(|jobs|);
    FilterIncreasing(Range(|jobs|), isOpen);
    Filter(Range(|jobs|), isOpen)
  }

  /** The text filter, applied only to a non-empty query. */
  function FilterBySearch(ids: seq<nat>, jobs: seq<Job>, recruiters: map<nat, RecruiterProfile>, query: string): (r: seq<nat>)
    requires forall i :: i in ids ==> i < |jobs|
    ensures forall i :: i in r <==> i in ids && (query != "" ==> MatchesSearch(jobs[i], CompanyOf(recruiters, jobs[i]), query))
    ensures Increasing(ids) ==> Increasing(r)
  {
    if query == "" then ids
    else
      var keep := (i: nat) => i < |jobs| && MatchesSearch(jobs[i], CompanyOf(recruiters, jobs[i]), query);
      if Increasing(ids) then FilterIncreasing(ids, keep); Filter(ids, keep) else Filter(ids, keep)
  }

  /** The location filter, applied only to a non-empty location. */
  function FilterByLocation(ids: seq<nat>, jobs: seq<Job>, location: string): (r: seq<nat>)
    requires forall i :: i in ids ==> i < |jobs|
    ensures forall i :: i in r <==> i in ids && (location != "" ==> jobs[i].location == location)
    ensures Increasing(ids) ==> Increasing(r)
  {
    if location == "" then ids
    else
      var keep := (i: nat) => i < |jobs| && jobs[i].location == location;
      if Increasing(ids) then FilterIncreasing(ids, keep); Filter(ids, keep) else Filter(ids, keep)
  }

  /** The selection-type filter, applied only to a non-empty value. */
  function FilterBySelectionType(ids: seq<nat>, jobs: seq<Job>, selectionType: string): (r: seq<nat>)
    requires forall i :: i in ids ==> i < |jobs|
    ensures forall i :: i in r <==> i in ids && (selectionType != "" ==> SelectionTypeValue(jobs[i].selectionType) == selectionType)
    ensures Increasing(ids) ==> Increasing(r)
  {
    if selectionType == "" then ids
    else
      var keep := (i: nat) => i < |jobs| && SelectionTypeValue(jobs[i].selectionType) == selectionType;
      if Increasing(ids) then FilterIncreasing(ids, keep); Filter(ids, keep) else Filter(ids, keep)
  }

  /** The open jobs that pass the search, location and selection-type filters, in table order. */
  function SearchResults(jobs: seq<Job>, recruiters: map<nat, RecruiterProfile>, q: SearchQuery, now: int): (r: seq<nat>)
    ensures forall i: nat :: i in r <==> i < |jobs| && Selects(jobs, recruiters, q, now, i)
    ensures Increasing(r)
  {
    FilterBySelectionType(FilterByLocation(FilterBySearch(OpenJobs(jobs, now), jobs, recruiters, q.search), jobs, q.location),
                          jobs, q.selectionType)
  }

  /** Search shows ten jobs a page. */
  const PageSize: nat := 10

  /** The paginator's page count: enough pages of ten for every row, and one page for none. */
  function PageCount(count: nat): (n: nat)
    ensures n >= 1
    ensures count > 0 ==> (n - 1) * PageSize < count <= n * PageSize
    ensures count == 0 ==> n == 1
  {
    if count == 0 then 1 else (count + PageSize - 1) / PageSize
  }

  /**
   * `Paginator.get_page`: a missing or non-integer page number gives page 1 and
   * one outside 1 .. num_pages gives the last page.
   */
  function PageNumber(requested: Option<int>, count: nat): (n: nat)
    ensures 1 <= n <= PageCount(count)
    ensures requested.None? ==> n == 1
    ensures requested.Some? && 1 <= requested.value <= PageCount(count) ==> n == requested.value
    ensures requested.Some? && !(1 <= requested.value <= PageCount(count)) ==> n == PageCount(count)
  {
    if requested.None? then 1
    else if 1 <= requested.value <= PageCount(count) then requested.value
    else PageCount(count)
  }

  /** The rows on the page `get_page` chooses: the n-th block of ten. */
  function PageOf(s: seq<nat>, requested: Option<int>): (r: seq<nat>)
    ensures |r| <= PageSize
    ensures |s| > 0 ==> |r| > 0
    ensures forall k :: 0 <= k < |r| ==>
      && (PageNumber(requested, |s|) - 1) * PageSize + k < |s|
      && r[k] == s[(PageNumber(requested, |s|) - 1) * PageSize + k]
    ensures forall x :: x in r ==> x in s
  {
    var n := PageNumber(requested, |s|);
    var lo := (n - 1) * PageSize;
    var hi := if n * PageSize <= |s| then n * PageSize else |s|;
    s[lo..hi]
  }

  /** Every row is shown on exactly the page its position falls in. */
  lemma PagesCoverResults(s: seq<nat>, k: nat)
    requires k < |s|
    ensures k / PageSize + 1 <= PageCount(|s|)
    ensures k % PageSize < |PageOf(s, Some(k / PageSize + 1))|
    ensures PageOf(s, Some(k / PageSize + 1))[k % PageSize] == s[k]
  {
    var p := k / PageSize + 1;
    assert (p - 1) * PageSize + k % PageSize == k;
    assert PageNumber(Some(p), |s|) == p;
  }

  /** The location choices: the distinct locations of all jobs, open or not. */
  function Locations(jobs: seq<Job>): (r: set<string>)
    ensures forall i :: 0 <= i < |jobs| ==> jobs[i].location in r
    ensures forall l :: l in r ==> exists i :: 0 <= i < |jobs| && jobs[i].location == l
  {
    set i | 0 <= i < |jobs| :: jobs[i].location
  }

  /** The jobs `student` has applied to. */
  function AppliedJobIds(apps: seq<Application>, student: nat): (r: set<nat>)
    ensures forall j :: j in r <==> HasApplied(apps, student, j)
  {
    set i | 0 <= i < |apps| && apps[i].student == student :: apps[i].job
  }

  datatype SearchOutcome =
    | SearchLoginRedirect
    | SearchPage(jobs: seq<nat>, locations: set<string>, appliedJobIds: set<nat>)

  /** `search_job`: one page of the open jobs that match, with the filter choices and the jobs already applied to. */
  function SearchJob(db: Database, session: Option<nat>, q: SearchQuery, now: int): (r: SearchOutcome)
    reads db
    ensures r.SearchLoginRedirect? <==> StudentRequired(db.Identify(session)).Some?
    ensures r.SearchPage? ==> |r.jobs| <= PageSize
    ensures r.SearchPage? ==> forall i :: i in r.jobs ==> i < |db.jobs| && Selects(db.jobs, db.recruiters, q, now, i)
    ensures r.SearchPage? ==> r.jobs == PageOf(SearchResults(db.jobs, db.recruiters, q, now), q.page)
    ensures r.SearchPage? ==> r.locations == Locations(db.jobs)
    ensures r.SearchPage? ==> forall j :: j in r.appliedJobIds <==> HasApplied(db.applications, session.value, j)
  {
    var v := db.Identify(session);
    if StudentRequired(v).Some? then SearchLoginRedirect
    else
      SearchPage(PageOf(SearchResults(db.jobs, db.recruiters, q, now), q.page),
                 Locations(db.jobs), AppliedJobIds(db.applications, v.id))
  }

  // ---------------------------------------------------------------- apply_job

  /** apply_job's lookup finds the job only when it exists and is active; otherwise the answer is "not found". */
  predicate JobAvailable(jobs: seq<Job>, jobId: nat): (b: bool)
    ensures jobId >= |jobs| ==> !b
    ensures jobId < |jobs| ==> (b <==> jobs[jobId].isActive)
  {
    jobId < |jobs| && jobs[jobId].isActive
  }

  /** Everything apply_job checks before it looks at the CV and the form. */
  predicate MayApply(v: Visitor, jobs: seq<Job>, apps: seq<Application>, jobId: nat, now: int) {
    && StudentRequired(v) == None
    && JobAvailable(jobs, jobId)
    && !HasApplied(apps, v.id, jobId)
    && jobs[jobId].lastDate >= now
  }

  datatype ApplyOutcome =
    | ApplyLoginRedirect
    /** HTTP 404. */
    | JobNotFound
    /** Redirects to the job search. */
    | AlreadyApplied
    /** Redirects to the job search. */
    | DeadlinePassed
    /** Redirects to edit_profile. */
    | CvRequired
    /** Saved; redirects to the job search. */
    | Applied
    /** The application page; `formError` when a POST's preference was rejected. */
    | ApplyFormShown(hasCv: bool, cvApproved: bool, canApply: bool, formError: bool)

  /** The outcome of `apply_job`, checked in the source's order. */
  function ApplyDecision(v: Visitor, students: map<nat, StudentProfile>, jobs: seq<Job>, apps: seq<Application>,
                         jobId: nat, m: Method, preference: Option<int>, now: int): (r: ApplyOutcome)
    requires StudentRequired(v) == None ==> v.id in students
    ensures r.ApplyLoginRedirect? <==> StudentRequired(v).Some?
    ensures r.JobNotFound? <==> StudentRequired(v) == None && !JobAvailable(jobs, jobId)
    ensures r.AlreadyApplied? <==> StudentRequired(v) == None && JobAvailable(jobs, jobId) && HasApplied(apps, v.id, jobId)
    ensures r.DeadlinePassed? <==>
      StudentRequired(v) == None && JobAvailable(jobs, jobId) && !HasApplied(apps, v.id, jobId) && jobs[jobId].lastDate < now
    ensures r.CvRequired? <==> MayApply(v, jobs, apps, jobId, now) && m == Post && !HasCv(students[v.id])
    ensures r.Applied? <==>
      MayApply(v, jobs, apps, jobId, now) && m == Post && HasCv(students[v.id]) && CleanPreference(preference).Some?
    ensures r.ApplyFormShown? ==> MayApply(v, jobs, apps, jobId, now)
    ensures r.ApplyFormShown? ==>
      && r.hasCv == r.canApply == HasCv(students[v.id])
      && r.cvApproved == (HasCv(students[v.id]) && students[v.id].cvApproved)
      && r.formError == (m == Post)
  {
    if StudentRequired(v).Some? then ApplyLoginRedirect
    else if !JobAvailable(jobs, jobId) then JobNotFound
    else if HasApplied(apps, v.id, jobId) then AlreadyApplied
    else if jobs[jobId].lastDate < now then DeadlinePassed
    else
      var hasCv := HasCv(students[v.id]);
      if m == Post && !hasCv then CvRequired
      else if m == Post && CleanPreference(preference).Some? then Applied
      else ApplyFormShown(hasCv, hasCv && students[v.id].cvApproved, hasCv, m == Post)
  }

  /** `apply_job`: a student with a CV applies once to an active job whose deadline has not passed. */
  method ApplyJob(db: Database, session: Option<nat>, jobId: nat, m: Method, preference: Option<int>, now: int)
    returns (r: ApplyOutcome)
    requires db.Valid()
    modifies db
    ensures db.Valid()
    ensures db.users == old(db.users) && db.students == old(db.students) && db.recruiters == old(db.recruiters)
    ensures db.jobs == old(db.jobs)
    ensures r == ApplyDecision(db.Identify(session), db.students, db.jobs, old(db.applications), jobId, m, preference, now)
    ensures r.Applied? ==>
      db.applications == old(db.applications) + [NewApplication(session.value, jobId, preference.value as nat, now)]
    ensures !r.Applied? ==> db.applications == old(db.applications)
  {
    var v := db.Identify(session);
    if StudentRequired(v).Some? {
      return ApplyLoginRedirect;
    }
    assert v.id in db.students;
    if !JobAvailable(db.jobs, jobId) {
      return JobNotFound;
    }
    if HasApplied(db.applications, v.id, jobId) {
      return AlreadyApplied;
    }
    if db.jobs[jobId].lastDate < now {
      return DeadlinePassed;
    }
    var profile := db.students[v.id];
    var hasCv := HasCv(profile);
    if m == Post {
      if !hasCv {
        return CvRequired;
      }
      var cleaned := CleanPreference(preference);
      if cleaned.Some? {
        db.AddApplication(NewApplication(v.id, jobId, cleaned.value, now));
        return Applied;
      }
    }
    r := ApplyFormShown(hasCv, hasCv && profile.cvApproved, hasCv, m == Post);
  }

  /** Once an application is recorded, any later request for the same job is turned away as a duplicate. */
  lemma ReapplyIsRejected(v: Visitor, students: map<nat, StudentProfile>, jobs: seq<Job>, apps: seq<Application>,
                          jobId: nat, preference: Option<int>, now: int, m2: Method, preference2: Option<int>, now2: int)
    requires StudentRequired(v) == None ==> v.id in students
    requires ApplyDecision(v, students, jobs, apps, jobId, Post, preference, now).Applied?
    ensures ApplyDecision(v, students, jobs, apps + [NewApplication(v.id, jobId, preference.value as nat, now)],
                          jobId, m2, preference2, now2).AlreadyApplied?
  {
    var s := apps + [NewApplication(v.id, jobId, preference.value as nat, now)];
    assert s[|apps|].student == v.id && s[|apps|].job == jobId;
  }

  /**
   * A job whose deadline is exactly now is no longer listed by the search, yet it
   * still accepts applications: the search asks for a deadline after now, apply_job
   * only rejects one before now.
   */
  lemma DeadlineBoundary(v: Visitor, students: map<nat, StudentProfile>, jobs: seq<Job>, recruiters: map<nat, RecruiterProfile>,
                         apps: seq<Application>, jobId: nat, q: SearchQuery, preference: Option<int>, now: int)
    requires StudentRequired(v) == None && v.id in students && HasCv(students[v.id])
    requires JobAvailable(jobs, jobId) && jobs[jobId].lastDate == now && !HasApplied(apps, v.id, jobId)
    requires CleanPreference(preference).Some?
    ensures jobId !in SearchResults(jobs, recruiters, q, now)
    ensures ApplyDecision(v, students, jobs, apps, jobId, Post, preference, now).Applied?
  {
  }

  // ------------------------------------------- all_applications and the status update

  /**
   * The recruiter's lookup of application `id` finds it only when it exists and
   * belongs to a job that recruiter posted; otherwise the answer is "not found".
   */
  predicate InScope(jobs: seq<Job>, apps: seq<Application>, recruiter: nat, id: nat): (b: bool)
    ensures id >= |apps| ==> !b
    ensures id < |apps| ==> (b <==> apps[id].job < |jobs| && jobs[apps[id].job].recruiter == recruiter)
  {
    id < |apps| && apps[id].job < |jobs| && jobs[apps[id].job].recruiter == recruiter
  }

  /** The applications to the recruiter's own jobs, listed in id order. */
  function RecruiterApplications(jobs: seq<Job>, apps: seq<Application>, recruiter: nat): (r: seq<nat>)
    ensures forall i :: i in r <==> InScope(jobs, apps, recruiter, i)
    ensures Distinct(r)
  {
    var inScope := (i: nat) => InScope(jobs, apps, recruiter, i);
    RangeDistinct(|apps|);
    FilterDistinct(Range(|apps|), inScope);
    Filter(Range(|apps|), inScope)
  }

  /** The application date, the key the list is sorted on, newest first. */
  function AppliedDateKey(apps: seq<Application>): nat -> int {
    (i: nat) => if i < |apps| then apps[i].appliedDate else 0
  }

  /** Whether application `i` passes the `status` and `job` GET filters; an empty or missing one filters nothing. */
  predicate PassesFilters(apps: seq<Application>, statusFilter: string, jobFilter: Option<int>, i: nat)
    requires i < |apps|
  {
    && (statusFilter != "" ==> StatusValue(apps[i].status) == statusFilter)
    && (jobFilter.Some? ==> apps[i].job == jobFilter.value)
  }

  /** Applications of `ids` that are newer than or as new as every later one. */
  predicate NewestFirst(ids: seq<nat>, apps: seq<Application>) {
    forall a, b :: 0 <= a < b < |ids| ==> NoNewer(apps, ids[a], ids[b])
  }

  /** Application `j` exists and was not applied after application `i`. */
  predicate NoNewer(apps: seq<Application>, i: nat, j: nat) {
    i < |apps| && j < |apps| && apps[i].appliedDate >= apps[j].appliedDate
  }

  /** The list ordered by application date, newest first. */
  function OrderByDate(ids: seq<nat>, apps: seq<Application>): (r: seq<nat>)
    requires forall i :: i in ids ==> i < |apps|
    ensures forall i :: i in r <==> i in ids
    ensures Distinct(ids) ==> Distinct(r)
    ensures NewestFirst(r, apps)
  {
    var key := AppliedDateKey(apps);
    var r := SortDesc(ids, key);
    SortDescMembers(ids, key);
    SortedByDateIsNewestFirst(r, apps);
    if Distinct(ids) then SortDescDistinct(ids, key); r else r
  }

  /** The status filter, applied when one is given. */
  function FilterByStatus(ids: seq<nat>, apps: seq<Application>, statusFilter: string): (r: seq<nat>)
    requires forall i :: i in ids ==> i < |apps|
    ensures forall i :: i in r <==> i in ids && (statusFilter != "" ==> StatusValue(apps[i].status) == statusFilter)
    ensures Distinct(ids) ==> Distinct(r)
    ensures NewestFirst(ids, apps) ==> NewestFirst(r, apps)
  {
    if statusFilter == "" then ids
    else
      var keep := (i: nat) => i < |apps| && StatusValue(apps[i].status) == statusFilter;
      var r := Filter(ids, keep);
      FilterKeepsOrder(ids, keep, apps);
      if Distinct(ids) then FilterDistinct(ids, keep); r else r
  }

  /** The job filter, applied when one is given. */
  function FilterByJob(ids: seq<nat>, apps: seq<Application>, jobFilter: Option<int>): (r: seq<nat>)
    requires forall i :: i in ids ==> i < |apps|
    ensures forall i :: i in r <==> i in ids && (jobFilter.Some? ==> apps[i].job == jobFilter.value)
    ensures Distinct(ids) ==> Distinct(r)
    ensures NewestFirst(ids, apps) ==> NewestFirst(r, apps)
  {
    if jobFilter.None? then ids
    else
      var keep := (i: nat) => i < |apps| && apps[i].job == jobFilter.value;
      var r := Filter(ids, keep);
      FilterKeepsOrder(ids, keep, apps);
      if Distinct(ids) then FilterDistinct(ids, keep); r else r
  }

  lemma {:induction false} SortedByDateIsNewestFirst(ids: seq<nat>, apps: seq<Application>)
    requires SortedDesc(ids, AppliedDateKey(apps)) && forall i :: i in ids ==> i < |apps|
    ensures NewestFirst(ids, apps)
  {
    forall a, b | 0 <= a < b < |ids|
      ensures NoNewer(apps, ids[a], ids[b])
    {
      SortedPairIsNewer(ids, apps, a, b);
    }
  }

  /** One pair of a date-sorted list: the earlier entry is at least as new. */
  lemma SortedPairIsNewer(ids: seq<nat>, apps: seq<Application>, x: nat, y: nat)
    requires SortedDesc(ids, AppliedDateKey(apps)) && forall i :: i in ids ==> i < |apps|
    requires x < y < |ids|
    ensures NoNewer(apps, ids[x], ids[y])
  {
    var key := AppliedDateKey(apps);
    assert ids[x] in ids && ids[y] in ids;
    assert key(ids[x]) >= key(ids[y]);
  }

  /** Filtering keeps the newest-first order. */
  lemma FilterKeepsOrder(ids: seq<nat>, keep: nat -> bool, apps: seq<Application>)
    requires forall i :: i in ids ==> i < |apps|
    ensures NewestFirst(ids, apps) ==> NewestFirst(Filter(ids, keep), apps)
  {
    if NewestFirst(ids, apps) {
      var key := AppliedDateKey(apps);
      assert SortedDesc(ids, key) by {
        forall a, b | 0 <= a < b < |ids| ensures key(ids[a]) >= key(ids[b]) {
        }
      }
      FilterSortedDesc(ids, keep, key);
      var r := Filter(ids, keep);
      SortedByDateIsNewestFirst(r, apps);
    }
  }

  /** The recruiter's applications, newest first, narrowed by the status and then the job filter. */
  function ApplicationList(jobs: seq<Job>, apps: seq<Application>, recruiter: nat, statusFilter: string, jobFilter: Option<int>)
    : (r: seq<nat>)
    ensures forall i: nat :: i in r <==> InScope(jobs, apps, recruiter, i) && PassesFilters(apps, statusFilter, jobFilter, i)
    ensures Distinct(r)
    ensures NewestFirst(r, apps)
  {
    FilterByJob(FilterByStatus(OrderByDate(RecruiterApplications(jobs, apps, recruiter), apps), apps, statusFilter), apps, jobFilter)
  }

  /** The recruiter's own jobs, listed in id order. */
  function RecruiterJobs(jobs: seq<Job>, recruiter: nat): (r: seq<nat>)
    ensures forall j: nat :: j in r <==> j < |jobs| && jobs[j].recruiter == recruiter
    ensures Increasing(r)
  {
    var owned := (j: nat) => j < |jobs| && jobs[j].recruiter == recruiter;
    RangeIncreasing(|jobs|);
    FilterIncreasing(Range(|jobs|), owned);
    Filter(Range(|jobs|), owned)
  }

  datatype ApplicationsOutcome =
    | ApplicationsLoginRedirect
    | ApplicationsPage(applications: seq<nat>, jobs: seq<nat>)

  /** `all_applications`: the recruiter's own applications and jobs, never another recruiter's. */
  function AllApplications(db: Database, session: Option<nat>, statusFilter: string, jobFilter: Option<int>): (r: ApplicationsOutcome)
    reads db
    ensures r.ApplicationsLoginRedirect? <==> RecruiterRequired(db.Identify(session)).Some?
    ensures r.ApplicationsPage? ==>
      r.applications == ApplicationList(db.jobs, db.applications, session.value, statusFilter, jobFilter)
    ensures r.ApplicationsPage? ==> forall i :: i in r.applications ==> InScope(db.jobs, db.applications, session.value, i)
    ensures r.ApplicationsPage? ==> r.jobs == RecruiterJobs(db.jobs, session.value)
  {
    var v := db.Identify(session);
    if RecruiterRequired(v).Some? then ApplicationsLoginRedirect
    else ApplicationsPage(ApplicationList(db.jobs, db.applications, v.id, statusFilter, jobFilter), RecruiterJobs(db.jobs, v.id))
  }

  datatype StatusOutcome =
    | StatusLoginRedirect
    /** HTTP 404: no such application among the recruiter's own. */
    | ApplicationNotFound
    /** The application list, re-read after the update; `updated` is false for an unknown status value. */
    | StatusListed(updated: bool, applications: seq<nat>, jobs: seq<nat>)

  /**
   * `update_application_status`: a recruiter moves one of their own applications
   * to any of the seven statuses (there is no transition rule), then sees the
   * filtered list.
   */
  method UpdateApplicationStatus(db: Database, session: Option<nat>, appId: nat, newStatus: string,
                                 statusFilter: string, jobFilter: Option<int>) returns (r: StatusOutcome)
    requires db.Valid()
    modifies db
    ensures db.Valid()
    ensures db.users == old(db.users) && db.students == old(db.students) && db.recruiters == old(db.recruiters)
    ensures db.jobs == old(db.jobs)
    ensures r.StatusLoginRedirect? <==> RecruiterRequired(db.Identify(session)).Some?
    ensures r.ApplicationNotFound? <==>
      RecruiterRequired(db.Identify(session)) == None && !InScope(db.jobs, old(db.applications), session.value, appId)
    ensures r.StatusListed? ==> InScope(db.jobs, old(db.applications), session.value, appId)
    ensures r.StatusListed? ==> (r.updated <==> ParseStatus(newStatus).Some?)
    ensures r.StatusListed? && r.updated ==>
      db.applications == SetStatus(old(db.applications), appId, ParseStatus(newStatus).value)
    ensures !(r.StatusListed? && r.updated) ==> db.applications == old(db.applications)
    ensures r.StatusListed? ==>
      && r.applications == ApplicationList(db.jobs, db.applications, session.value, statusFilter, jobFilter)
      && r.jobs == RecruiterJobs(db.jobs, session.value)
  {
    var v := db.Identify(session);
    if RecruiterRequired(v).Some? {
      return StatusLoginRedirect;
    }
    if !InScope(db.jobs, db.applications, v.id, appId) {
      return ApplicationNotFound;
    }
    var status := ParseStatus(newStatus);
    if status.Some? {
      db.SaveStatus(appId, status.value);
    }
    var listed := ApplicationList(db.jobs, db.applications, v.id, statusFilter, jobFilter);
    var owned := RecruiterJobs(db.jobs, v.id);
    r := StatusListed(status.Some?, listed, owned);
  }

  /** Every status can be reached from every status: the stored value of any status is accepted. */
  lemma AnyStatusAccepted(from: Status, to: Status, apps: seq<Application>, id: nat)
    requires id < |apps| && apps[id].status == from
    ensures ParseStatus(StatusValue(to)).Some?
    ensures SetStatus(apps, id, ParseStatus(StatusValue(to)).value)[id].status == to
  {
    StatusRoundTrip(to);
  }

  // -------------------------------------------------------------- download_cv

  datatype DownloadOutcome =
    | DownloadLoginRedirect
    /** HTTP 404: no such application among the recruiter's own. */
    | DownloadNotFound
    /** The student has no CV; redirects to the applicants of `jobId`. */
    | NoCvRedirect(jobId: nat)
    /** The CV as an attachment named after the student. */
    | ServeCv(file: CvFile, filename: string)

  /** `download_cv`: a recruiter downloads the CV behind one of their own applications. */
  function DownloadCv(db: Database, session: Option<nat>, appId: nat): (r: DownloadOutcome)
    reads db
    requires db.Valid()
    ensures r.DownloadLoginRedirect? <==> RecruiterRequired(db.Identify(session)).Some?
    ensures r.DownloadNotFound? <==>
      RecruiterRequired(db.Identify(session)) == None && !InScope(db.jobs, db.applications, session.value, appId)
    ensures r.NoCvRedirect? || r.ServeCv? ==> InScope(db.jobs, db.applications, session.value, appId)
    ensures r.NoCvRedirect? ==>
      && r.jobId == db.applications[appId].job
      && !HasCv(db.students[db.applications[appId].student])
    ensures r.ServeCv? ==>
      var student := db.applications[appId].student;
      && HasCv(db.students[student])
      && r.file == db.students[student].cv
      && student < |db.users|
      && r.filename == FullName(db.users[student]) + "_CV.pdf"
  {
    var v := db.Identify(session);
    if RecruiterRequired(v).Some? then DownloadLoginRedirect
    else if !InScope(db.jobs, db.applications, v.id, appId) then DownloadNotFound
    else
      var app := db.applications[appId];
      var profile := db.students[app.student];
      if !HasCv(profile) then NoCvRedirect(app.job)
      else ServeCv(profile.cv, FullName(db.users[app.student]) + "_CV.pdf")
  }
}
