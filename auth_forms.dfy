/**
 * The account forms: sign-up (with its recruiter-needs-a-company rule), the
 * account and profile forms used by profile editing, and the profile form's
 * case-insensitive CV check. Every text field is stripped before it is validated,
 * as Django's CharField and EmailField do.
 */
module AuthForms {
  import opened Wrappers
  import opened Text
  import opened CvFiles
  import opened AuthModels

  const UsernameMaxLength := 150
  const EmailMaxLength := 254
  const CompanyNameMaxLength := 50
  /** The user model's password column holds at most 128 characters; the form checks that before hashing. */
  const PasswordMaxLength := 128

  /** A cleaned username the account table can take: present, short enough, free of NUL, not in use. */
  predicate UsernameAcceptable(username: string, taken: set<string>) {
    username != "" && |username| <= UsernameMaxLength && !HasNul(username) && username !in taken
  }

  /**
   * A cleaned email the account table can take: present, short enough and free of NUL as
   * typed, and, with its domain lower-cased, not in use. The address syntax check is not modelled.
   */
  predicate EmailAcceptable(email: string, taken: set<string>) {
    email != "" && |email| <= EmailMaxLength && !HasNul(email) && NormalizeEmail(email) !in taken
  }

  /** A cleaned password the form accepts: present, within the column's length, free of NUL. */
  predicate PasswordAcceptable(password: string) {
    password != "" && |password| <= PasswordMaxLength && !HasNul(password)
  }

  datatype SignupField = UsernameField | EmailField | PasswordField | RoleField | CompanyNameField

  datatype SignupInput = SignupInput(username: string, email: string, password: string, role: string, companyName: string)

  datatype SignupData = SignupData(username: string, email: string, role: Role, companyName: string)

  /** The sign-up form's role choices: student and recruiter only. */
  function SignupRoleChoice(value: string): (r: Option<Role>)
    ensures r == Some(Student) <==> value == "student"
    ensures r == Some(Recruiter) <==> value == "recruiter"
    ensures r != Some(Admin)
  {
    if value == "student" then Some(Student)
    else if value == "recruiter" then Some(Recruiter)
    else None
  }

  const SignupFields: set<SignupField> := {UsernameField, EmailField, PasswordField, RoleField, CompanyNameField}

  lemma SignupFieldsComplete(f: SignupField)
    ensures f in SignupFields
  {
    match f
    case UsernameField =>
    case EmailField =>
    case PasswordField =>
    case RoleField =>
    case CompanyNameField =>
  }

  /** Whether `SignUpForm` records an error on field `f`. */
  predicate SignupFieldError(f: SignupField, input: SignupInput, takenUsernames: set<string>, takenEmails: set<string>) {
    match f
    case UsernameField => !UsernameAcceptable(Strip(input.username), takenUsernames)
    case EmailField => !EmailAcceptable(Strip(input.email), takenEmails)
    case PasswordField => !PasswordAcceptable(Strip(input.password))
    case RoleField => SignupRoleChoice(input.role) == None
    case CompanyNameField =>
      // the field's own max_length and NUL checks, then clean(): a recruiter must give a company name
      |Strip(input.companyName)| > CompanyNameMaxLength || HasNul(Strip(input.companyName))
      || (SignupRoleChoice(input.role) == Some(Recruiter) && Strip(input.companyName) == "")
  }

  /** The set of fields `SignUpForm` records an error on. */
  function SignupErrors(input: SignupInput, takenUsernames: set<string>, takenEmails: set<string>): (errs: set<SignupField>)
    ensures forall f :: f in errs <==> SignupFieldError(f, input, takenUsernames, takenEmails)
  {
    var errors := set f | f in SignupFields && SignupFieldError(f, input, takenUsernames, takenEmails);
    assert forall f :: f in errors <==> SignupFieldError(f, input, takenUsernames, takenEmails) by {
      forall f ensures f in errors <==> SignupFieldError(f, input, takenUsernames, takenEmails) {
        SignupFieldsComplete(f);
      }
    }
    errors
  }

  /**
   * `SignUpForm.is_valid()`: the field checks, the uniqueness of username and email
   * against the accounts already stored, and `clean()`'s cross-field rule. The saved
   * email is the normalised one, and that is the one checked for uniqueness.
   */
  function CleanSignup(input: SignupInput, takenUsernames: set<string>, takenEmails: set<string>): (r: Result<SignupData, set<SignupField>>)
    ensures r.Ok? <==> SignupErrors(input, takenUsernames, takenEmails) == {}
    ensures r.Err? ==> r.error == SignupErrors(input, takenUsernames, takenEmails)
    ensures r.Ok? ==> r.value.role != Admin
    ensures r.Ok? ==> UsernameAcceptable(r.value.username, takenUsernames) && EmailAcceptable(Strip(input.email), takenEmails)
    ensures r.Ok? ==> r.value.username == Strip(input.username) && r.value.email == NormalizeEmail(Strip(input.email))
    ensures r.Ok? ==> r.value.email != "" && r.value.email !in takenEmails
    ensures r.Ok? ==> r.value.companyName == Strip(input.companyName) && |r.value.companyName| <= CompanyNameMaxLength
    ensures r.Ok? ==> !HasNul(r.value.companyName) && PasswordAcceptable(Strip(input.password))
    ensures r.Ok? && r.value.role == Recruiter ==> r.value.companyName != ""
  {
    var errors := SignupErrors(input, takenUsernames, takenEmails);
    if errors == {} then
      NoSignupErrors(input, takenUsernames, takenEmails);
      Ok(SignupData(Strip(input.username), NormalizeEmail(Strip(input.email)), SignupRoleChoice(input.role).value, Strip(input.companyName)))
    else
      Err(errors)
  }

  /** A sign-up form without errors passes every field rule. */
  lemma NoSignupErrors(input: SignupInput, takenUsernames: set<string>, takenEmails: set<string>)
    requires SignupErrors(input, takenUsernames, takenEmails) == {}
    ensures UsernameAcceptable(Strip(input.username), takenUsernames)
    ensures EmailAcceptable(Strip(input.email), takenEmails)
    ensures PasswordAcceptable(Strip(input.password))
    ensures SignupRoleChoice(input.role).Some? && |Strip(input.companyName)| <= CompanyNameMaxLength
    ensures !HasNul(Strip(input.companyName))
    ensures SignupRoleChoice(input.role) == Some(Recruiter) ==> Strip(input.companyName) != ""
  {
    var errors := SignupErrors(input, takenUsernames, takenEmails);
    assert !SignupFieldError(UsernameField, input, takenUsernames, takenEmails) by { assert UsernameField !in errors; }
    assert !SignupFieldError(EmailField, input, takenUsernames, takenEmails) by { assert EmailField !in errors; }
    assert !SignupFieldError(PasswordField, input, takenUsernames, takenEmails) by { assert PasswordField !in errors; }
    assert !SignupFieldError(RoleField, input, takenUsernames, takenEmails) by { assert RoleField !in errors; }
    assert !SignupFieldError(CompanyNameField, input, takenUsernames, takenEmails) by { assert CompanyNameField !in errors; }
  }

  /** A recruiter who leaves the company name empty gets an error on that field. */
  lemma RecruiterNeedsCompany(input: SignupInput, takenUsernames: set<string>, takenEmails: set<string>)
    requires SignupRoleChoice(input.role) == Some(Recruiter) && Strip(input.companyName) == ""
    ensures var r := CleanSignup(input, takenUsernames, takenEmails);
            r.Err? && CompanyNameField in r.error
  {
    assert SignupFieldError(CompanyNameField, input, takenUsernames, takenEmails);
    var errs := SignupErrors(input, takenUsernames, takenEmails);
    assert CompanyNameField in errs;
  }

  /** A password longer than the column, once stripped, is an error on that field. */
  lemma LongPasswordRejected(input: SignupInput, takenUsernames: set<string>, takenEmails: set<string>)
    requires |Strip(input.password)| > PasswordMaxLength
    ensures var r := CleanSignup(input, takenUsernames, takenEmails);
            r.Err? && PasswordField in r.error
  {
    assert SignupFieldError(PasswordField, input, takenUsernames, takenEmails);
    var errs := SignupErrors(input, takenUsernames, takenEmails);
    assert PasswordField in errs;
  }

  /** A student never trips the recruiter's company-name rule: only an over-long value or a NUL is an error. */
  lemma StudentNeedsNoCompany(input: SignupInput, takenUsernames: set<string>, takenEmails: set<string>)
    requires SignupRoleChoice(input.role) == Some(Student)
    ensures var r := CleanSignup(input, takenUsernames, takenEmails);
            r.Err? && CompanyNameField in r.error
            <==> |Strip(input.companyName)| > CompanyNameMaxLength || HasNul(Strip(input.companyName))
  {
    var errs := SignupErrors(input, takenUsernames, takenEmails);
    assert CompanyNameField in errs <==> |Strip(input.companyName)| > CompanyNameMaxLength || HasNul(Strip(input.companyName));
  }

  /** An address taken with a lower-case domain is taken in any case of that domain. */
  lemma DomainCaseClash()
    ensures var r := CleanSignup(SignupInput("bob", "Bob@Example.COM", "secret", "student", ""), {}, {"Bob@example.com"});
            r.Err? && EmailField in r.error
  {
    var input := SignupInput("bob", "Bob@Example.COM", "secret", "student", "");
    assert Strip("Bob@Example.COM") == "Bob@Example.COM" by {
      Text.LetterIsNotSpace('B');
      Text.LetterIsNotSpace('M');
    }
    DomainCaseIgnored();
    assert SignupFieldError(EmailField, input, {}, {"Bob@example.com"});
    var errs := SignupErrors(input, {}, {"Bob@example.com"});
    assert EmailField in errs;
  }

  datatype AccountField = AccountUsername | AccountEmail

  /** `CustomUserForm`: username and email, unique among the other accounts; the email is saved normalised. */
  function CleanAccount(username: string, email: string, otherUsernames: set<string>, otherEmails: set<string>): (r: Result<(string, string), set<AccountField>>)
    ensures r.Ok? <==> UsernameAcceptable(Strip(username), otherUsernames) && EmailAcceptable(Strip(email), otherEmails)
    ensures r.Ok? ==> r.value == (Strip(username), NormalizeEmail(Strip(email)))
    ensures r.Ok? ==> r.value.0 !in otherUsernames && r.value.1 !in otherEmails
    ensures r.Err? ==> (AccountUsername in r.error <==> !UsernameAcceptable(Strip(username), otherUsernames))
    ensures r.Err? ==> (AccountEmail in r.error <==> !EmailAcceptable(Strip(email), otherEmails))
  {
    var u := Strip(username);
    var e := Strip(email);
    var usernameOk := UsernameAcceptable(u, otherUsernames);
    var emailOk := EmailAcceptable(e, otherEmails);
    if usernameOk && emailOk then Ok((u, NormalizeEmail(e)))
    else Err((if usernameOk then {} else {AccountUsername}) + (if emailOk then {} else {AccountEmail}))
  }

  /** `RecruiterProfileForm`: the model's company_name, required, at most 50 characters, free of NUL. */
  function CleanCompanyName(raw: string): (r: Option<string>)
    ensures r.Some? <==> Strip(raw) != "" && |Strip(raw)| <= CompanyNameMaxLength && !HasNul(Strip(raw))
    ensures r.Some? ==> r.value == Strip(raw)
  {
    var c := Strip(raw);
    if c != "" && |c| <= CompanyNameMaxLength && !HasNul(c) then Some(c) else None
  }

  /** True when the lower-cased name ends with an allowed extension. */
  predicate HasCvExtensionIgnoringCase(name: string) {
    EndsWithAny(Lower(name), AllowedExtensions)
  }

  /**
   * `StudentProfileForm.clean_cv`: an absent file is accepted; a present one needs an
   * allowed extension in any letter case, then at most 5 MiB. Accepted files come back unchanged.
   */
  function CleanProfileCv(cv: CvFile): (r: Result<CvFile, CvError>)
    ensures r.Ok? ==> r.value == cv
    ensures !IsPresent(cv) ==> r == Ok(cv)
    ensures r == Err(UnsupportedType) <==> IsPresent(cv) && !HasCvExtensionIgnoringCase(cv.name)
    ensures r == Err(TooLarge) <==> IsPresent(cv) && HasCvExtensionIgnoringCase(cv.name) && cv.size > MaxCvSize
    ensures r != Err(MissingCv)
  {
    if IsPresent(cv) then
      if !HasCvExtensionIgnoringCase(cv.name) then Err(UnsupportedType)
      else if cv.size > MaxCvSize then Err(TooLarge)
      else Ok(cv)
    else Ok(cv)
  }

  /**
   * The profile form's whole check of its CV field: the file field's own checks on a
   * newly submitted file, then clean_cv on the file the field cleaned to.
   */
  function ValidateProfileCv(submitted: CvFile, stored: CvFile): (r: Result<CvFile, CvError>)
    ensures r.Ok? ==> r.value == BoundFile(submitted, stored)
    ensures IsPresent(submitted) && |submitted.name| > MaxNameLength ==> r == Err(NameTooLong)
    ensures IsPresent(submitted) && |submitted.name| <= MaxNameLength && submitted.size == 0 ==> r == Err(EmptyFile)
    ensures IsPresent(submitted) && |submitted.name| <= MaxNameLength && submitted.size > 0 ==> r == CleanProfileCv(submitted)
    ensures !IsPresent(submitted) ==> r == CleanProfileCv(stored)
    ensures r.Ok? <==> CleanFileField(submitted, stored).Ok? && CleanProfileCv(BoundFile(submitted, stored)).Ok?
  {
    match CleanFileField(submitted, stored)
    case Err(e) => Err(e)
    case Ok(cv) => CleanProfileCv(cv)
  }

  /** A name one character over the limit is refused even with an allowed extension. */
  lemma LongNameRejected(name: string)
    requires |name| == MaxNameLength + 1
    ensures ValidateProfileCv(CvFile(name, 1024), NoFile) == Err(NameTooLong)
  {
  }

  /** An upper-case extension passes the profile form's check. */
  lemma UpperCaseExtensionAccepted()
    ensures CleanProfileCv(CvFile("CV.PDF", 1024)) == Ok(CvFile("CV.PDF", 1024))
  {
    assert Lower("CV.PDF") == "cv.pdf";
    assert EndsWith(Lower("CV.PDF"), AllowedExtensions[0]);
  }
}
