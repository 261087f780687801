/**
 * The database: the account table, the two profile tables keyed one-to-one by
 * account id, the job table and the application table. Primary keys are row
 * positions, since no operation here deletes a row.
 */
module Store {
  import opened Wrappers
  import opened AuthModels
  import opened JobModels
  import opened Decorators
  import opened CvFiles

  /** `username` and `email` are unique columns. */
  ghost predicate UniqueAccounts(users: seq<User>) {
    forall i, j :: 0 <= i < j < |users| ==> users[i].username != users[j].username && users[i].email != users[j].email
  }

  /**
   * Every Student row belongs to a student account and every Recruiter row to a
   * recruiter account, and each student or recruiter account has its profile.
   */
  ghost predicate ProfilesMatchRoles(users: seq<User>, students: map<nat, StudentProfile>, recruiters: map<nat, RecruiterProfile>) {
    && (forall k :: k in students ==> k < |users| && users[k].role == Student)
    && (forall k :: k in recruiters ==> k < |users| && users[k].role == Recruiter)
    && (forall k :: 0 <= k < |users| && users[k].role == Student ==> k in students)
    && (forall k :: 0 <= k < |users| && users[k].role == Recruiter ==> k in recruiters)
  }

  /** Foreign keys: a job's recruiter exists. */
  ghost predicate JobsOwned(jobs: seq<Job>, recruiters: map<nat, RecruiterProfile>) {
    forall j :: 0 <= j < |jobs| ==> jobs[j].recruiter in recruiters
  }

  /** Foreign keys: an application's student and job exist. */
  ghost predicate ApplicationsLinked(apps: seq<Application>, students: map<nat, StudentProfile>, jobs: seq<Job>) {
    forall i :: 0 <= i < |apps| ==> apps[i].student in students && apps[i].job < |jobs|
  }

  ghost predicate WellFormed(users: seq<User>, students: map<nat, StudentProfile>, recruiters: map<nat, RecruiterProfile>,
                             jobs: seq<Job>, apps: seq<Application>) {
    && UniqueAccounts(users)
    && ProfilesMatchRoles(users, students, recruiters)
    && JobsOwned(jobs, recruiters)
    && ApplicationsLinked(apps, students, jobs)
    && UniquePairs(apps)
  }

  /** No account holds both kinds of profile. */
  lemma ProfilesDisjoint(users: seq<User>, students: map<nat, StudentProfile>, recruiters: map<nat, RecruiterProfile>)
    requires ProfilesMatchRoles(users, students, recruiters)
    ensures students.Keys !! recruiters.Keys
  {
    forall k | k in students ensures k !in recruiters {
      assert users[k].role == Student;
    }
  }

  /** The usernames in use by the accounts other than `except` (pass |users| to exclude none). */
  function UsernamesExcept(users: seq<User>, except: nat): (r: set<string>)
    ensures forall i :: 0 <= i < |users| && i != except ==> users[i].username in r
    ensures forall u :: u in r ==> exists i :: 0 <= i < |users| && i != except && users[i].username == u
  {
    set i | 0 <= i < |users| && i != except :: users[i].username
  }

  /** The emails in use by the accounts other than `except`. */
  function EmailsExcept(users: seq<User>, except: nat): (r: set<string>)
    ensures forall i :: 0 <= i < |users| && i != except ==> users[i].email in r
    ensures forall e :: e in r ==> exists i :: 0 <= i < |users| && i != except && users[i].email == e
  {
    set i | 0 <= i < |users| && i != except :: users[i].email
  }

  /** Recording an application for a student and a job that have none keeps the store well formed. */
  lemma AddApplicationKeepsWellFormed(users: seq<User>, students: map<nat, StudentProfile>, recruiters: map<nat, RecruiterProfile>,
                             jobs: seq<Job>, apps: seq<Application>, a: Application)
    requires WellFormed(users, students, recruiters, jobs, apps)
    requires a.student in students && a.job < |jobs| && !HasApplied(apps, a.student, a.job)
    ensures WellFormed(users, students, recruiters, jobs, apps + [a])
  {
    AppendKeepsUniquePairs(apps, a);
  }

  /** Changing a status keeps the store well formed. */
  lemma SetStatusKeepsWellFormed(users: seq<User>, students: map<nat, StudentProfile>, recruiters: map<nat, RecruiterProfile>,
                                 jobs: seq<Job>, apps: seq<Application>, id: nat, status: Status)
    requires WellFormed(users, students, recruiters, jobs, apps) && id < |apps|
    ensures WellFormed(users, students, recruiters, jobs, SetStatus(apps, id, status))
  {
    SetStatusKeepsUniquePairs(apps, id, status);
    var r := SetStatus(apps, id, status);
    forall i | 0 <= i < |r| ensures r[i].student in students && r[i].job < |jobs| {
      assert r[i].student == apps[i].student && r[i].job == apps[i].job;
    }
  }


  /** A new job of an existing recruiter keeps the store well formed. */
  lemma AddJobKeepsWellFormed(users: seq<User>, students: map<nat, StudentProfile>, recruiters: map<nat, RecruiterProfile>,
                              jobs: seq<Job>, apps: seq<Application>, j: Job)
    requires WellFormed(users, students, recruiters, jobs, apps)
    requires j.recruiter in recruiters
    ensures WellFormed(users, students, recruiters, jobs + [j], apps)
  {
    var s := jobs + [j];
    forall i | 0 <= i < |apps| ensures apps[i].job < |s| {
    }
    forall k | 0 <= k < |s| ensures s[k].recruiter in recruiters {
      if k < |jobs| { assert s[k] == jobs[k]; }
    }
  }

  /** No account other than `except` uses `username` or `email`. */
  predicate Unused(users: seq<User>, except: nat, username: string, email: string) {
    forall k :: 0 <= k < |users| && k != except ==> users[k].username != username && users[k].email != email
  }

  /** Values missing from the sets in use are unused. */
  lemma NotTakenIsUnused(users: seq<User>, except: nat, username: string, email: string)
    requires username !in UsernamesExcept(users, except) && email !in EmailsExcept(users, except)
    ensures Unused(users, except, username, email)
  {
    UsernameNotTaken(users, except, username);
    EmailNotTaken(users, except, email);
  }

  lemma UsernameNotTaken(users: seq<User>, except: nat, username: string)
    requires username !in UsernamesExcept(users, except)
    ensures forall k :: 0 <= k < |users| && k != except ==> users[k].username != username
  {
    var names := UsernamesExcept(users, except);
    forall k | 0 <= k < |users| && k != except ensures users[k].username != username {
      assert users[k].username in names;
    }
  }

  lemma EmailNotTaken(users: seq<User>, except: nat, email: string)
    requires email !in EmailsExcept(users, except)
    ensures forall k :: 0 <= k < |users| && k != except ==> users[k].email != email
  {
    var emails := EmailsExcept(users, except);
    forall k | 0 <= k < |users| && k != except ensures users[k].email != email {
      assert users[k].email in emails;
    }
  }

  /** Changing one account's username and email to unused values keeps them unique. */
  lemma RenameKeepsUnique(users: seq<User>, id: nat, username: string, email: string)
    requires UniqueAccounts(users) && id < |users| && Unused(users, id, username, email)
    ensures UniqueAccounts(users[id := users[id].(username := username, email := email)])
  {
    var u := users[id := users[id].(username := username, email := email)];
    forall i, j | 0 <= i < j < |u| ensures u[i].username != u[j].username && u[i].email != u[j].email {
      if i != id && j != id {
        assert u[i] == users[i] && u[j] == users[j];
      }
    }
  }

  /** Renaming an account keeps its role, so the profiles still match. */
  lemma RenameKeepsProfiles(users: seq<User>, students: map<nat, StudentProfile>, recruiters: map<nat, RecruiterProfile>,
                            id: nat, username: string, email: string)
    requires ProfilesMatchRoles(users, students, recruiters) && id < |users|
    ensures ProfilesMatchRoles(users[id := users[id].(username := username, email := email)], students, recruiters)
  {
    var u := users[id := users[id].(username := username, email := email)];
    assert forall k :: 0 <= k < |users| ==> u[k].role == users[k].role;
  }

  lemma RenameKeepsWellFormed(users: seq<User>, students: map<nat, StudentProfile>, recruiters: map<nat, RecruiterProfile>,
                              jobs: seq<Job>, apps: seq<Application>, id: nat, username: string, email: string)
    requires WellFormed(users, students, recruiters, jobs, apps) && id < |users|
    requires username !in UsernamesExcept(users, id) && email !in EmailsExcept(users, id)
    ensures WellFormed(users[id := users[id].(username := username, email := email)], students, recruiters, jobs, apps)
  {
    NotTakenIsUnused(users, id, username, email);
    RenameKeepsUnique(users, id, username, email);
    RenameKeepsProfiles(users, students, recruiters, id, username, email);
  }

  /** A new account with an unused username and email keeps them unique. */
  lemma AddAccountKeepsUnique(users: seq<User>, u: User)
    requires UniqueAccounts(users)
    requires u.username !in UsernamesExcept(users, |users|) && u.email !in EmailsExcept(users, |users|)
    ensures UniqueAccounts(users + [u])
  {
    var us := users + [u];
    forall i, j | 0 <= i < j < |us| ensures us[i].username != us[j].username && us[i].email != us[j].email {
      if j == |users| {
        assert users[i].username in UsernamesExcept(users, |users|) && users[i].email in EmailsExcept(users, |users|);
      } else {
        assert us[i] == users[i] && us[j] == users[j];
      }
    }
  }

  /** The profile created at the new account's id matches its role. */
  lemma AddAccountKeepsProfiles(users: seq<User>, students: map<nat, StudentProfile>, recruiters: map<nat, RecruiterProfile>,
                                u: User, companyName: string)
    requires ProfilesMatchRoles(users, students, recruiters)
    ensures ProfilesMatchRoles(users + [u],
                               if u.role == Student then students[|users| := NewStudentProfile()] else students,
                               if u.role == Recruiter then recruiters[|users| := RecruiterProfile(companyName)] else recruiters)
  {
    var us := users + [u];
    assert forall k :: 0 <= k < |users| ==> us[k] == users[k];
    assert us[|users|] == u;
  }

  /** A new account with an unused username and email, with the profile its role calls for, keeps the store well formed. */
  lemma AddAccountKeepsWellFormed(users: seq<User>, students: map<nat, StudentProfile>, recruiters: map<nat, RecruiterProfile>,
                                  jobs: seq<Job>, apps: seq<Application>, u: User, companyName: string)
    requires WellFormed(users, students, recruiters, jobs, apps)
    requires u.username !in UsernamesExcept(users, |users|) && u.email !in EmailsExcept(users, |users|)
    ensures WellFormed(users + [u],
                       if u.role == Student then students[|users| := NewStudentProfile()] else students,
                       if u.role == Recruiter then recruiters[|users| := RecruiterProfile(companyName)] else recruiters,
                       jobs, apps)
  {
    AddAccountKeepsUnique(users, u);
    AddAccountKeepsProfiles(users, students, recruiters, u, companyName);
  }

  class Database {
    var users: seq<User>
    var students: map<nat, StudentProfile>
    var recruiters: map<nat, RecruiterProfile>
    var jobs: seq<Job>
    var applications: seq<Application>

    ghost predicate Valid()
      reads this
    {
      WellFormed(users, students, recruiters, jobs, applications)
    }

    constructor ()
      ensures Valid()
      ensures users == [] && students == map[] && recruiters == map[] && jobs == [] && applications == []
    {
      users, students, recruiters, jobs, applications := [], map[], map[], [], [];
    }

    /**
     * `request.user` for a session that names account `session`: a session whose
     * account does not exist is anonymous, as Django's authentication middleware has it.
     */
    function Identify(session: Option<nat>): (v: Visitor)
      reads this`users
      ensures v.SignedIn? <==> session.Some? && session.value < |users|
      ensures v.SignedIn? ==> v.id == session.value && v.user == users[v.id]
    {
      if session.Some? && session.value < |users| then SignedIn(session.value, users[session.value]) else Anonymous
    }

    /** Inserting a new job; its recruiter exists. */
    method AddJob(j: Job)
      requires Valid() && j.recruiter in recruiters
      modifies this
      ensures Valid()
      ensures jobs == old(jobs) + [j]
      ensures users == old(users) && students == old(students) && recruiters == old(recruiters) && applications == old(applications)
    {
      AddJobKeepsWellFormed(users, students, recruiters, jobs, applications, j);
      jobs := jobs + [j];
    }

    /** Inserting a new application; the uniqueness rule forbids a second one for the same pair. */
    method AddApplication(a: Application)
      requires Valid()
      requires a.student in students && a.job < |jobs| && !HasApplied(applications, a.student, a.job)
      modifies this
      ensures Valid()
      ensures applications == old(applications) + [a]
      ensures users == old(users) && students == old(students) && recruiters == old(recruiters) && jobs == old(jobs)
    {
      AddApplicationKeepsWellFormed(users, students, recruiters, jobs, applications, a);
      applications := applications + [a];
    }

    /** Saving an application after a status change. */
    method SaveStatus(id: nat, status: Status)
      requires Valid() && id < |applications|
      modifies this
      ensures Valid()
      ensures applications == SetStatus(old(applications), id, status)
      ensures users == old(users) && students == old(students) && recruiters == old(recruiters) && jobs == old(jobs)
    {
      SetStatusKeepsWellFormed(users, students, recruiters, jobs, applications, id, status);
      applications := SetStatus(applications, id, status);
    }

    /** Saving a student profile; the `user` key and so the one-to-one link stay as they were. */
    method SaveStudent(id: nat, p: StudentProfile)
      requires Valid() && id in students
      modifies this
      ensures Valid()
      ensures students == old(students)[id := p]
      ensures users == old(users) && recruiters == old(recruiters) && jobs == old(jobs) && applications == old(applications)
    {
      students := students[id := p];
      assert students.Keys == old(students).Keys;
    }

    /** Saving a recruiter profile. */
    method SaveRecruiter(id: nat, p: RecruiterProfile)
      requires Valid() && id in recruiters
      modifies this
      ensures Valid()
      ensures recruiters == old(recruiters)[id := p]
      ensures users == old(users) && students == old(students) && jobs == old(jobs) && applications == old(applications)
    {
      recruiters := recruiters[id := p];
      assert recruiters.Keys == old(recruiters).Keys;
    }

    /** Saving an account's username and email; neither may be in use by another account. */
    method SaveAccount(id: nat, username: string, email: string)
      requires Valid() && id < |users|
      requires username !in UsernamesExcept(users, id) && email !in EmailsExcept(users, id)
      modifies this
      ensures Valid()
      ensures users == old(users)[id := old(users)[id].(username := username, email := email)]
      ensures students == old(students) && recruiters == old(recruiters) && jobs == old(jobs) && applications == old(applications)
    {
      RenameKeepsWellFormed(users, students, recruiters, jobs, applications, id, username, email);
      users := users[id := users[id].(username := username, email := email)];
    }

    /**
     * The signup transaction: the new account and the profile its role calls for,
     * written together. An admin account gets no profile.
     */
    method AddAccount(u: User, companyName: string) returns (id: nat)
      requires Valid()
      requires u.username !in UsernamesExcept(users, |users|) && u.email !in EmailsExcept(users, |users|)
      modifies this
      ensures Valid()
      ensures id == |old(users)| && users == old(users) + [u]
      ensures u.role == Student ==> students == old(students)[id := NewStudentProfile()] && recruiters == old(recruiters)
      ensures u.role == Recruiter ==> recruiters == old(recruiters)[id := RecruiterProfile(companyName)] && students == old(students)
      ensures u.role == Admin ==> students == old(students) && recruiters == old(recruiters)
      ensures jobs == old(jobs) && applications == old(applications)
    {
      id := |users|;
      AddAccountKeepsWellFormed(users, students, recruiters, jobs, applications, u, companyName);
      if u.role == Student {
        students := students[id := NewStudentProfile()];
      } else if u.role == Recruiter {
        recruiters := recruiters[id := RecruiterProfile(companyName)];
      }
      users := users + [u];
    }
  }
}
