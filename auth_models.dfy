/** Accounts with a role tag, and the Student and Recruiter profiles attached to them. */
module AuthModels {
  import opened Wrappers
  import opened CvFiles
  import Text

  datatype Role = Student | Recruiter | Admin

  /** The value stored in the `role` column. */
  function RoleValue(r: Role): string {
    match r
    case Student => "student"
    case Recruiter => "recruiter"
    case Admin => "admin"
  }

  /** An account. The password hash lives with the authentication library and is not modelled. */
  datatype User = User(username: string, email: string, firstName: string, lastName: string, role: Role)

  predicate IsStudent(u: User) {
    RoleValue(u.role) == "student"
  }

  predicate IsRecruiter(u: User) {
    RoleValue(u.role) == "recruiter"
  }

  /** The two role predicates test the role tag exactly and never hold together. */
  lemma RolePredicates(u: User)
    ensures IsStudent(u) <==> u.role == Student
    ensures IsRecruiter(u) <==> u.role == Recruiter
    ensures !(IsStudent(u) && IsRecruiter(u))
  {
  }

  /**
   * What `AbstractUser.clean()` does to the email before the uniqueness check and the
   * save (the manager's `normalize_email`): the domain, everything after the last '@',
   * is lower-cased; the local part is kept as typed, and an address without '@' is kept whole.
   */
  function NormalizeEmail(email: string): (r: string)
    ensures |r| == |email|
    ensures Text.LastIndexOf(email, '@').None? ==> r == email
  {
    match Text.LastIndexOf(email, '@')
    case None => email
    case Some(at) => Text.LowerFrom(email, at + 1)
  }

  /** Up to and including the last '@' the address is kept; after it every letter is lower-cased. */
  lemma NormalizeEmailLowersDomain(email: string, at: nat)
    requires Text.LastIndexOf(email, '@') == Some(at)
    ensures forall i :: 0 <= i <= at ==> NormalizeEmail(email)[i] == email[i]
    ensures forall i :: at < i < |email| ==> NormalizeEmail(email)[i] == Text.LowerChar(email[i])
  {
    assert NormalizeEmail(email) == Text.LowerFrom(email, at + 1);
  }

  /** Normalising twice gives what normalising once gives. */
  lemma NormalizeEmailIdempotent(email: string)
    ensures NormalizeEmail(NormalizeEmail(email)) == NormalizeEmail(email)
  {
    var r := NormalizeEmail(email);
    match Text.LastIndexOf(email, '@')
    case None =>
    case Some(at) =>
      NormalizeEmailLowersDomain(email, at);
      assert Text.LastIndexOf(r, '@') == Some(at) by {
        Text.LastIndexOfUnique(r, '@', at);
      }
  }

  /** Two addresses differing only in the case of the domain normalise to the same address. */
  lemma DomainCaseIgnored()
    ensures NormalizeEmail("Bob@Example.COM") == "Bob@example.com"
  {
    var e := "Bob@Example.COM";
    assert Text.LastIndexOf(e, '@') == Some(3) by {
      Text.LastIndexOfUnique(e, '@', 3);
    }
    assert Text.Lower("Example.COM") == "example.com";
  }

  /** `get_full_name()`: first and last name joined by a space, then stripped. */
  function FullName(u: User): (r: string)
    ensures r == [] || (!Text.IsSpace(r[0]) && !Text.IsSpace(r[|r| - 1]))
    ensures u.firstName == "" && u.lastName == "" ==> r == ""
    ensures exists i, j :: Text.StrippedAt(u.firstName + " " + u.lastName, r, i, j)
  {
    assert Text.IsSpace(' ');
    Text.StripKeepsMiddle(u.firstName + " " + u.lastName);
    Text.Strip(u.firstName + " " + u.lastName)
  }

  datatype StudentProfile = StudentProfile(cv: CvFile, cvApproved: bool, jobStatus: bool)

  /** The profile sign-up creates for a student: no CV, not approved, not placed. */
  function NewStudentProfile(): (p: StudentProfile)
    ensures !p.cvApproved && !p.jobStatus && !HasCv(p)
  {
    StudentProfile(NoFile, false, false)
  }

  /** `has_cv()`: the profile's file reference carries a name. */
  predicate HasCv(p: StudentProfile): (b: bool)
    ensures b <==> p.cv.name != ""
  {
    IsPresent(p.cv)
  }

  datatype RecruiterProfile = RecruiterProfile(companyName: string)
}
