/**
 * The account views: sign-up, log-in and log-out, the student and recruiter
 * dashboards, and profile editing. `session` is the signed-in account id;
 * password checking is the `authenticated` parameter of UserLogin.
 */
module AuthViews {
  import opened Wrappers
  import opened Text
  import opened Collections
  import opened Web
  import opened CvFiles
  import opened AuthModels
  import opened Decorators
  import opened AuthForms
  import opened JobModels
  import opened Store
  import opened JobViews

  // ------------------------------------------------------------------- signup

  /** Where a new account is sent: students to their dashboard, everyone else to the recruiter's. */
  function SignupRedirect(role: Role): (p: Page)
    ensures p == StudentDashboardPage <==> role == Student
    ensures p != StudentDashboardPage ==> p == RecruiterDashboardPage
  {
    if role == Student then StudentDashboardPage else RecruiterDashboardPage
  }

  datatype SignupOutcome =
    /** The form again: blank on GET, with the invalid fields on a rejected POST. */
    | SignupFormShown(errors: set<SignupField>)
    /** Account `id` created and signed in; redirects to `next`. */
    | SignedUp(id: nat, next: Page)

  /**
   * `signup`: a valid POST writes one account and the one profile its role
   * calls for, in one transaction; an invalid one writes nothing.
   */
  method Signup(db: Database, m: Method, input: SignupInput) returns (r: SignupOutcome)
    requires db.Valid()
    modifies db
    ensures db.Valid()
    ensures db.jobs == old(db.jobs) && db.applications == old(db.applications)
    ensures r.SignedUp? <==>
      m == Post && CleanSignup(input, UsernamesExcept(old(db.users), |old(db.users)|), EmailsExcept(old(db.users), |old(db.users)|)).Ok?
    ensures r.SignedUp? ==>
      var d := CleanSignup(input, UsernamesExcept(old(db.users), |old(db.users)|), EmailsExcept(old(db.users), |old(db.users)|)).value;
      && r.id == |old(db.users)|
      && db.users == old(db.users) + [User(d.username, d.email, "", "", d.role)]
      && r.next == SignupRedirect(d.role)
      && (d.role == Student ==> db.students == old(db.students)[r.id := NewStudentProfile()] && db.recruiters == old(db.recruiters))
      && (d.role == Recruiter ==>
            db.recruiters == old(db.recruiters)[r.id := RecruiterProfile(d.companyName)] && db.students == old(db.students))
    ensures r.SignupFormShown? ==>
      db.users == old(db.users) && db.students == old(db.students) && db.recruiters == old(db.recruiters)
    ensures r.SignupFormShown? ==>
      r.errors == if m == Post then SignupErrors(input, UsernamesExcept(old(db.users), |old(db.users)|),
                                                 EmailsExcept(old(db.users), |old(db.users)|)) else {}
  {
    if m == Get {
      return SignupFormShown({});
    }
    var cleaned := CleanSignup(input, UsernamesExcept(db.users, |db.users|), EmailsExcept(db.users, |db.users|));
    if cleaned.Err? {
      return SignupFormShown(cleaned.error);
    }
    var d := cleaned.value;
    var id := db.AddAccount(User(d.username, d.email, "", "", d.role), d.companyName);
    r := SignedUp(id, SignupRedirect(d.role));
  }

  // ------------------------------------------------------------ login, logout

  /** `user_login`'s redirect: each role to its own dashboard. */
  function LoginRedirect(role: Role): (p: Page)
    ensures p == StudentDashboardPage <==> role == Student
    ensures p == RecruiterDashboardPage <==> role == Recruiter
    ensures p == AdminDashboardPage <==> role == Admin
  {
    match role
    case Student => StudentDashboardPage
    case Recruiter => RecruiterDashboardPage
    case Admin => AdminDashboardPage
  }

  datatype LoginOutcome = LoginFormShown | LoggedIn(id: nat, next: Page)

  /**
   * `user_login`: `authenticated` is what `authenticate(username, password)`
   * returns for the posted credentials, None when they match no account.
   */
  function UserLogin(db: Database, m: Method, authenticated: Option<nat>): (r: LoginOutcome)
    reads db
    ensures r.LoggedIn? <==> m == Post && authenticated.Some? && authenticated.value < |db.users|
    ensures r.LoggedIn? ==> r.id == authenticated.value && r.next == LoginRedirect(db.users[r.id].role)
  {
    if m == Post && authenticated.Some? && authenticated.value < |db.users| then
      LoggedIn(authenticated.value, LoginRedirect(db.users[authenticated.value].role))
    else LoginFormShown
  }

  /** `user_logout`: signed-in visitors end at the landing page, others are sent to log in. */
  function UserLogout(v: Visitor): (p: Page)
    ensures p == LandingPage <==> v.SignedIn?
    ensures p != LandingPage ==> p == LoginPage
  {
    if LoginRequired(v).Some? then LoginPage else LandingPage
  }

  // -------------------------------------------------------------- dashboards

  datatype StudentDashboardOutcome = StudentDashboardLoginRedirect | StudentDashboardShown(cvApproved: bool, jobStatus: bool)

  /** `student_dashboard`: the student's own two flags. */
  function StudentDashboard(db: Database, session: Option<nat>): (r: StudentDashboardOutcome)
    reads db
    requires db.Valid()
    ensures r.StudentDashboardLoginRedirect? <==> StudentRequired(db.Identify(session)).Some?
    ensures r.StudentDashboardShown? ==>
      && session.value in db.students
      && r.cvApproved == db.students[session.value].cvApproved
      && r.jobStatus == db.students[session.value].jobStatus
  {
    var v := db.Identify(session);
    if StudentRequired(v).Some? then StudentDashboardLoginRedirect
    else
      var p := db.students[v.id];
      StudentDashboardShown(p.cvApproved, p.jobStatus)
  }

  /** The dashboard's active jobs: the recruiter's jobs that are active with a deadline after now, listed in id order. */
  function ActiveJobs(jobs: seq<Job>, recruiter: nat, now: int): (r: seq<nat>)
    ensures forall j: nat :: j in r <==> j < |jobs| && jobs[j].recruiter == recruiter && OpenForSearch(jobs[j], now)
    ensures Increasing(r)
  {
    var isOpen := (j: nat) => j < |jobs| && OpenForSearch(jobs[j], now);
    var owned := RecruiterJobs(jobs, recruiter);
    FilterIncreasing(owned, isOpen);
    Filter(owned, isOpen)
  }

  /** The applications to one job, in id order. */
  function ApplicationsFor(apps: seq<Application>, job: nat): (r: seq<nat>)
    ensures forall i: nat :: i in r <==> i < |apps| && apps[i].job == job
    ensures Distinct(r)
  {
    var forJob := (i: nat) => i < |apps| && apps[i].job == job;
    RangeDistinct(|apps|);
    FilterDistinct(Range(|apps|), forJob);
    Filter(Range(|apps|), forJob)
  }

  /** The count shown beside a job is the number of applications to that job. */
  lemma ApplicationCountIsNumberOfApplications(apps: seq<Application>, job: nat)
    ensures |ApplicationsFor(apps, job)| == |set i | 0 <= i < |apps| && apps[i].job == job|
  {
    var r := ApplicationsFor(apps, job);
    DistinctCardinality(r);
    assert Members(r) == (set i | 0 <= i < |apps| && apps[i].job == job);
  }

  /** A job on the dashboard with its application count. */
  datatype JobRow = JobRow(job: nat, applicationsCount: nat)

  datatype DashboardStats = DashboardStats(activeJobsCount: nat, totalApplications: nat, inProcessCount: nat, positionsFilled: nat)

  /** The four statuses the dashboard counts as in process. */
  const InProcessValues: seq<string> := ["under_review", "shortlisted_oa", "completed_oa", "shortlisted_interview"]

  predicate InProcess(s: Status) {
    StatusValue(s) in InProcessValues
  }

  /** "selected" is not one of the in-process statuses. */
  lemma SelectedIsNotInProcess(s: Status)
    ensures !(InProcess(s) && StatusValue(s) == "selected")
  {
    match s
    case Pending =>
    case UnderReview =>
    case ShortlistedOa =>
    case CompletedOa =>
    case ShortlistedInterview =>
    case Selected =>
    case Rejected =>
  }

  /** The dashboard statistics; an application is never both in process and selected. */
  function Stats(jobs: seq<Job>, apps: seq<Application>, recruiter: nat, now: int): (s: DashboardStats)
    ensures s.activeJobsCount == |ActiveJobs(jobs, recruiter, now)|
    ensures s.totalApplications == |RecruiterApplications(jobs, apps, recruiter)|
    ensures s.inProcessCount + s.positionsFilled <= s.totalApplications
  {
    var scope := RecruiterApplications(jobs, apps, recruiter);
    var inProcess := (i: nat) => i < |apps| && InProcess(apps[i].status);
    var selected := (i: nat) => i < |apps| && StatusValue(apps[i].status) == "selected";
    assert forall i: nat :: !(inProcess(i) && selected(i)) by {
      forall i: nat | i < |apps| ensures !(InProcess(apps[i].status) && StatusValue(apps[i].status) == "selected") {
        SelectedIsNotInProcess(apps[i].status);
      }
    }
    DisjointFilters(scope, inProcess, selected);
    DashboardStats(|ActiveJobs(jobs, recruiter, now)|, |scope|, |Filter(scope, inProcess)|, |Filter(scope, selected)|)
  }

  /** The in-process count is the number of the recruiter's applications in one of the four middle statuses. */
  lemma InProcessCountIsNumberInProcess(jobs: seq<Job>, apps: seq<Application>, recruiter: nat, now: int)
    ensures Stats(jobs, apps, recruiter, now).inProcessCount ==
            |set i | 0 <= i < |apps| && InScope(jobs, apps, recruiter, i) && InProcess(apps[i].status)|
  {
    var inProcess := (i: nat) => i < |apps| && InProcess(apps[i].status);
    var scope := RecruiterApplications(jobs, apps, recruiter);
    FilterDistinct(scope, inProcess);
    var a := Filter(scope, inProcess);
    DistinctCardinality(a);
    assert Members(a) == set i | 0 <= i < |apps| && InScope(jobs, apps, recruiter, i) && InProcess(apps[i].status);
  }

  /** The positions-filled count is the number of the recruiter's applications marked selected. */
  lemma PositionsFilledIsNumberSelected(jobs: seq<Job>, apps: seq<Application>, recruiter: nat, now: int)
    ensures Stats(jobs, apps, recruiter, now).positionsFilled ==
            |set i | 0 <= i < |apps| && InScope(jobs, apps, recruiter, i) && apps[i].status == Selected|
  {
    var selected := (i: nat) => i < |apps| && StatusValue(apps[i].status) == "selected";
    var scope := RecruiterApplications(jobs, apps, recruiter);
    FilterDistinct(scope, selected);
    var b := Filter(scope, selected);
    DistinctCardinality(b);
    forall i: nat | i < |apps| ensures selected(i) <==> apps[i].status == Selected {
      StatusRoundTrip(apps[i].status);
    }
    assert Members(b) == set i | 0 <= i < |apps| && InScope(jobs, apps, recruiter, i) && apps[i].status == Selected;
  }

  /** The size of the slice of recent applications on the dashboard. */
  const RecentCount: nat := 10

  /**
   * `recent_applications`: at most ten of the recruiter's applications that pass the
   * status filter, newest first, and none left out that is newer than one shown.
   */
  function RecentApplications(jobs: seq<Job>, apps: seq<Application>, recruiter: nat, statusFilter: string): (r: seq<nat>)
    ensures |r| <= RecentCount
    ensures var n := |ApplicationList(jobs, apps, recruiter, statusFilter, None)|;
            |r| == if n < RecentCount then n else RecentCount
    ensures r == ApplicationList(jobs, apps, recruiter, statusFilter, None)[..|r|]
    ensures forall i :: i in r ==> InScope(jobs, apps, recruiter, i) && PassesFilters(apps, statusFilter, None, i)
    ensures NewestFirst(r, apps)
    ensures forall i :: i in ApplicationList(jobs, apps, recruiter, statusFilter, None) && i !in r ==>
              i < |apps| && forall t :: 0 <= t < |r| ==> r[t] < |apps| && apps[r[t]].appliedDate >= apps[i].appliedDate
  {
    var full := ApplicationList(jobs, apps, recruiter, statusFilter, None);
    var r := Take(full, RecentCount);
    assert forall i :: i in r ==> i in full;
    TakeKeepsNewest(full, RecentCount, apps);
    r
  }

  /** A prefix of a newest-first list is newest first, and nothing after it is newer. */
  lemma TakeKeepsNewest(full: seq<nat>, n: nat, apps: seq<Application>)
    requires NewestFirst(full, apps) && forall i :: i in full ==> i < |apps|
    ensures NewestFirst(Take(full, n), apps)
    ensures forall i :: i in full && i !in Take(full, n) ==>
              i < |apps| && forall t :: 0 <= t < |Take(full, n)| ==>
                Take(full, n)[t] < |apps| && apps[Take(full, n)[t]].appliedDate >= apps[i].appliedDate
  {
    var r := Take(full, n);
    forall i | i in full && i !in r
      ensures i < |apps| && forall t :: 0 <= t < |r| ==> r[t] < |apps| && apps[r[t]].appliedDate >= apps[i].appliedDate
    {
      var k :| 0 <= k < |full| && full[k] == i;
      assert k >= |r|;
      forall t | 0 <= t < |r| ensures r[t] < |apps| && apps[r[t]].appliedDate >= apps[i].appliedDate {
        assert r[t] == full[t];
      }
    }
  }

  datatype DashboardOutcome =
    | DashboardLoginRedirect
    | DashboardShown(activeJobs: seq<JobRow>, recent: seq<nat>, stats: DashboardStats)

  /** `recruiter_dashboard`: the active jobs with their counts, the recent applications and the statistics. */
  method RecruiterDashboard(db: Database, session: Option<nat>, statusFilter: string, now: int) returns (r: DashboardOutcome)
    ensures r.DashboardLoginRedirect? <==> RecruiterRequired(db.Identify(session)).Some?
    ensures r.DashboardShown? ==>
      var active := ActiveJobs(db.jobs, session.value, now);
      && |r.activeJobs| == |active|
      && forall t :: 0 <= t < |active| ==>
           r.activeJobs[t] == JobRow(active[t], |ApplicationsFor(db.applications, active[t])|)
    ensures r.DashboardShown? ==> r.recent == RecentApplications(db.jobs, db.applications, session.value, statusFilter)
    ensures r.DashboardShown? ==> r.stats == Stats(db.jobs, db.applications, session.value, now)
  {
    var v := db.Identify(session);
    if RecruiterRequired(v).Some? {
      return DashboardLoginRedirect;
    }
    var active := ActiveJobs(db.jobs, v.id, now);
    var rows: seq<JobRow> := [];
    var k := 0;
    while k < |active|
      invariant 0 <= k <= |active|
      invariant |rows| == k
      invariant forall t :: 0 <= t < k ==> rows[t] == JobRow(active[t], |ApplicationsFor(db.applications, active[t])|)
    {
      rows := rows + [JobRow(active[k], |ApplicationsFor(db.applications, active[k])|)];
      k := k + 1;
    }
    r := DashboardShown(rows, RecentApplications(db.jobs, db.applications, v.id, statusFilter), Stats(db.jobs, db.applications, v.id, now));
  }

  // ------------------------------------------------------------- edit_profile

  /** The posted edit form: the account fields and the profile field of the account's role. */
  datatype ProfileInput = ProfileInput(username: string, email: string, cv: CvFile, companyName: string)

  /** Both edit forms are valid for account `id`: the account form and the profile form of its role. */
  predicate EditValid(users: seq<User>, students: map<nat, StudentProfile>, id: nat, input: ProfileInput)
    requires id < |users| && (users[id].role == Student ==> id in students)
  {
    && CleanAccount(input.username, input.email, UsernamesExcept(users, id), EmailsExcept(users, id)).Ok?
    && (users[id].role == Student ==> ValidateProfileCv(input.cv, students[id].cv).Ok?)
    && (users[id].role == Recruiter ==> CleanCompanyName(input.companyName).Some?)
  }

  datatype EditOutcome =
    | EditLoginRedirect
    /** An admin: an error message and a redirect home. */
    | EditNotAvailable
    /** Saved; redirects to the profile page. */
    | ProfileSaved
    /** The forms again: blank on GET, with the errors of a rejected POST. */
    | EditFormShown(accountErrors: set<AccountField>, profileValid: bool)

  /**
   * `edit_profile`: both forms must be valid before either is saved; a submitted
   * CV file clears the approval flag.
   */
  method EditProfile(db: Database, session: Option<nat>, m: Method, input: ProfileInput) returns (r: EditOutcome)
    requires db.Valid()
    modifies db
    ensures db.Valid()
    ensures db.jobs == old(db.jobs) && db.applications == old(db.applications)
    ensures r.EditLoginRedirect? <==> LoginRequired(old(db.Identify(session))).Some?
    ensures r.EditNotAvailable? <==> old(db.Identify(session)).SignedIn? && old(db.Identify(session)).user.role == Admin
    ensures r.ProfileSaved? <==>
      && old(db.Identify(session)).SignedIn?
      && old(db.Identify(session)).user.role != Admin
      && m == Post
      && EditValid(old(db.users), old(db.students), session.value, input)
    ensures !r.ProfileSaved? ==> db.users == old(db.users) && db.students == old(db.students) && db.recruiters == old(db.recruiters)
    ensures r.ProfileSaved? ==>
      var u := old(db.users)[session.value];
      db.users == old(db.users)[session.value := u.(username := Strip(input.username), email := NormalizeEmail(Strip(input.email)))]
    ensures r.ProfileSaved? && old(db.users)[session.value].role == Student ==>
      var p := old(db.students)[session.value];
      && db.students == old(db.students)[session.value :=
           StudentProfile(SavedFile(input.cv, p.cv), if IsPresent(input.cv) then false else p.cvApproved, p.jobStatus)]
      && db.recruiters == old(db.recruiters)
    ensures r.ProfileSaved? && old(db.users)[session.value].role == Recruiter ==>
      && db.recruiters == old(db.recruiters)[session.value := RecruiterProfile(Strip(input.companyName))]
      && db.students == old(db.students)
  {
    var v := db.Identify(session);
    if LoginRequired(v).Some? {
      return EditLoginRedirect;
    }
    var id := v.id;
    var role := v.user.role;
    if role == Admin {
      return EditNotAvailable;
    }
    if m == Get {
      return EditFormShown({}, true);
    }
    assert role == Student ==> id in db.students;
    assert role == Recruiter ==> id in db.recruiters;
    var account := CleanAccount(input.username, input.email, UsernamesExcept(db.users, id), EmailsExcept(db.users, id));
    var profileValid :=
      if role == Student then ValidateProfileCv(input.cv, db.students[id].cv).Ok?
      else CleanCompanyName(input.companyName).Some?;
    if account.Err? || !profileValid {
      return EditFormShown(if account.Err? then account.error else {}, profileValid);
    }
    db.SaveAccount(id, account.value.0, account.value.1);
    if role == Student {
      var p := db.students[id];
      var saved := p.(cv := SavedFile(input.cv, p.cv));
      if IsPresent(input.cv) {
        saved := saved.(cvApproved := false);
      }
      db.SaveStudent(id, saved);
    } else {
      db.SaveRecruiter(id, RecruiterProfile(CleanCompanyName(input.companyName).value));
    }
    r := ProfileSaved;
  }
}
