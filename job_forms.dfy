/**
 * The forms of the job side: the CV upload form's case-sensitive check, the job
 * creation form with its deadline check, and the application form's preference.
 */
module JobForms {
  import opened Wrappers
  import opened Text
  import opened CvFiles
  import opened JobModels
  import AuthForms

  predicate HasCvExtension(name: string) {
    EndsWithAny(name, AllowedExtensions)
  }

  /**
   * `CVUploadForm.clean_cv`: a file is required; its name must end with an allowed
   * extension exactly as written (lower case); then it may be at most 5 MiB.
   * The first failing check decides the error; an accepted file comes back unchanged.
   */
  function CleanUploadCv(cv: CvFile): (r: Result<CvFile, CvError>)
    ensures r.Ok? ==> r.value == cv
    ensures r == Err(MissingCv) <==> !IsPresent(cv)
    ensures r == Err(UnsupportedType) <==> IsPresent(cv) && !HasCvExtension(cv.name)
    ensures r == Err(TooLarge) <==> IsPresent(cv) && HasCvExtension(cv.name) && cv.size > MaxCvSize
    ensures r.Ok? <==> IsPresent(cv) && HasCvExtension(cv.name) && cv.size <= MaxCvSize
  {
    if IsPresent(cv) then
      if !HasCvExtension(cv.name) then Err(UnsupportedType)
      else if cv.size > MaxCvSize then Err(TooLarge)
      else Ok(cv)
    else Err(MissingCv)
  }

  /**
   * The upload form's whole check of its CV field: the file field's own checks on a
   * newly submitted file, then clean_cv on the file the field cleaned to.
   */
  function ValidateUploadCv(submitted: CvFile, stored: CvFile): (r: Result<CvFile, CvError>)
    ensures r.Ok? ==> r.value == BoundFile(submitted, stored)
    ensures IsPresent(submitted) && |submitted.name| > MaxNameLength ==> r == Err(NameTooLong)
    ensures IsPresent(submitted) && |submitted.name| <= MaxNameLength && submitted.size == 0 ==> r == Err(EmptyFile)
    ensures IsPresent(submitted) && |submitted.name| <= MaxNameLength && submitted.size > 0 ==> r == CleanUploadCv(submitted)
    ensures !IsPresent(submitted) ==> r == CleanUploadCv(stored)
    ensures r.Ok? <==> CleanFileField(submitted, stored).Ok? && CleanUploadCv(BoundFile(submitted, stored)).Ok?
  {
    match CleanFileField(submitted, stored)
    case Err(e) => Err(e)
    case Ok(cv) => CleanUploadCv(cv)
  }

  /** An empty file that clean_cv alone would take is stopped by the file field first. */
  lemma EmptyUploadRejected()
    ensures CleanUploadCv(CvFile("cv.pdf", 0)).Ok?
    ensures ValidateUploadCv(CvFile("cv.pdf", 0), NoFile) == Err(EmptyFile)
  {
    assert EndsWith("cv.pdf", AllowedExtensions[0]);
  }

  /** A stored CV is checked by clean_cv again, without the file field's checks. */
  lemma StoredCvKeepsPassing(stored: CvFile)
    requires CleanUploadCv(stored).Ok?
    ensures ValidateUploadCv(NoFile, stored) == Ok(stored)
  {
  }

  /** Exactly 5 MiB is accepted, one byte more is too large. */
  lemma UploadSizeBoundary(name: string)
    requires name != "" && HasCvExtension(name)
    ensures CleanUploadCv(CvFile(name, MaxCvSize)).Ok?
    ensures CleanUploadCv(CvFile(name, MaxCvSize + 1)) == Err(TooLarge)
  {
  }

  /** The upload form rejects an upper-case extension that the profile form accepts. */
  lemma UpperCaseExtensionRejected()
    ensures CleanUploadCv(CvFile("CV.PDF", 1024)) == Err(UnsupportedType)
    ensures AuthForms.CleanProfileCv(CvFile("CV.PDF", 1024)).Ok?
  {
    var name := "CV.PDF";
    forall k | 0 <= k < |AllowedExtensions| ensures !EndsWith(name, AllowedExtensions[k]) {
      assert name[|name| - 1] == 'F';
    }
    AuthForms.UpperCaseExtensionAccepted();
  }

  /** Whatever the upload form's clean_cv accepts, the profile form's accepts too (the converse fails, see above). */
  lemma UploadAcceptanceImpliesProfileAcceptance(cv: CvFile)
    requires CleanUploadCv(cv).Ok?
    ensures AuthForms.CleanProfileCv(cv) == Ok(cv)
  {
    var k :| 0 <= k < |AllowedExtensions| && EndsWith(cv.name, AllowedExtensions[k]);
    assert Lower(AllowedExtensions[k]) == AllowedExtensions[k];
    LowerKeepsLowerSuffix(cv.name, AllowedExtensions[k]);
    assert EndsWith(Lower(cv.name), AllowedExtensions[k]);
  }

  /** The same holds for the two forms' whole CV checks on the same submission. */
  lemma UploadFormImpliesProfileForm(submitted: CvFile, stored: CvFile)
    requires ValidateUploadCv(submitted, stored).Ok?
    ensures AuthForms.ValidateProfileCv(submitted, stored) == ValidateUploadCv(submitted, stored)
  {
    UploadAcceptanceImpliesProfileAcceptance(BoundFile(submitted, stored));
  }

  datatype DeadlineError = DeadlineInPast

  /**
   * `JobCreationForm.clean_last_date_to_apply`: a deadline earlier than now is
   * rejected; a deadline equal to now, a later one, or none at all passes unchanged.
   */
  function CleanDeadline(lastDate: Option<int>, now: int): (r: Result<Option<int>, DeadlineError>)
    ensures r.Err? <==> lastDate.Some? && lastDate.value < now
    ensures r.Ok? ==> r.value == lastDate
  {
    if lastDate.Some? && lastDate.value < now then Err(DeadlineInPast) else Ok(lastDate)
  }

  /** The job form's submitted values; `lastDate` is None when the field is empty or unparsable. */
  datatype JobInput = JobInput(
    title: string,
    position: string,
    location: string,
    description: string,
    criteria: string,
    selectionType: string,
    lastDate: Option<int>,
    salaryRange: string,
    isActive: bool)

  datatype JobField = TitleField | PositionField | LocationField | DescriptionField | CriteriaField
                    | SelectionTypeField | LastDateField | SalaryRangeField

  const JobFields: set<JobField> := {TitleField, PositionField, LocationField, DescriptionField, CriteriaField,
                                     SelectionTypeField, LastDateField, SalaryRangeField}

  lemma JobFieldsComplete(f: JobField)
    ensures f in JobFields
  {
    match f
    case TitleField =>
    case PositionField =>
    case LocationField =>
    case DescriptionField =>
    case CriteriaField =>
    case SelectionTypeField =>
    case LastDateField =>
    case SalaryRangeField =>
  }

  /** A required text field of the job model, cleaned, fits the column (no limit when maxLength is 0) and has no NUL. */
  predicate RequiredTextValid(raw: string, maxLength: nat) {
    Strip(raw) != "" && (maxLength == 0 || |Strip(raw)| <= maxLength) && !HasNul(Strip(raw))
  }

  /** Whether `JobCreationForm` records an error on field `f`. */
  predicate JobFieldError(f: JobField, input: JobInput, now: int) {
    match f
    case TitleField => !RequiredTextValid(input.title, 200)
    case PositionField => !RequiredTextValid(input.position, 100)
    case LocationField => !RequiredTextValid(input.location, 100)
    case DescriptionField => !RequiredTextValid(input.description, 0)
    case CriteriaField => !RequiredTextValid(input.criteria, 0)
    case SelectionTypeField => ParseSelectionType(input.selectionType).None?
    case LastDateField => input.lastDate.None? || CleanDeadline(input.lastDate, now).Err?
    case SalaryRangeField => |Strip(input.salaryRange)| > 100 || HasNul(Strip(input.salaryRange))
  }

  function JobErrors(input: JobInput, now: int): (errs: set<JobField>)
    ensures forall f :: f in errs <==> JobFieldError(f, input, now)
  {
    var errors := set f | f in JobFields && JobFieldError(f, input, now);
    assert forall f :: f in errors <==> JobFieldError(f, input, now) by {
      forall f ensures f in errors <==> JobFieldError(f, input, now) {
        JobFieldsComplete(f);
      }
    }
    errors
  }

  /** A validated job form, before the view attaches the recruiter. */
  datatype JobDraft = JobDraft(
    title: string,
    position: string,
    location: string,
    description: string,
    criteria: string,
    selectionType: SelectionType,
    lastDate: int,
    salaryRange: Option<string>,
    isActive: bool)

  /** The cleaned values of a job form whose selection type and deadline are valid. */
  function DraftOf(input: JobInput): (d: JobDraft)
    requires ParseSelectionType(input.selectionType).Some? && input.lastDate.Some?
    ensures d.title == Strip(input.title) && d.position == Strip(input.position) && d.location == Strip(input.location)
    ensures d.description == Strip(input.description) && d.criteria == Strip(input.criteria)
    ensures SelectionTypeValue(d.selectionType) == input.selectionType
    ensures Some(d.lastDate) == input.lastDate && d.isActive == input.isActive
    ensures d.salaryRange == None <==> Strip(input.salaryRange) == ""
    ensures d.salaryRange.Some? ==> d.salaryRange.value == Strip(input.salaryRange)
  {
    var salary := Strip(input.salaryRange);
    JobDraft(Strip(input.title), Strip(input.position), Strip(input.location), Strip(input.description),
             Strip(input.criteria), ParseSelectionType(input.selectionType).value, input.lastDate.value,
             if salary == "" then None else Some(salary), input.isActive)
  }

  /** A job form without field errors has its required texts present and within their columns. */
  lemma NoTextErrors(input: JobInput, now: int)
    requires forall f :: !JobFieldError(f, input, now)
    ensures RequiredTextValid(input.title, 200) && RequiredTextValid(input.position, 100)
    ensures RequiredTextValid(input.location, 100)
    ensures RequiredTextValid(input.description, 0) && RequiredTextValid(input.criteria, 0)
  {
    assert !JobFieldError(TitleField, input, now);
    assert !JobFieldError(PositionField, input, now);
    assert !JobFieldError(LocationField, input, now);
    assert !JobFieldError(DescriptionField, input, now);
    assert !JobFieldError(CriteriaField, input, now);
  }

  /** A job form without field errors has a known selection type, a deadline not before now and a short salary range. */
  lemma NoChoiceErrors(input: JobInput, now: int)
    requires forall f :: !JobFieldError(f, input, now)
    ensures ParseSelectionType(input.selectionType).Some?
    ensures input.lastDate.Some? && input.lastDate.value >= now
    ensures |Strip(input.salaryRange)| <= 100 && !HasNul(Strip(input.salaryRange))
  {
    assert !JobFieldError(SelectionTypeField, input, now);
    assert !JobFieldError(LastDateField, input, now);
    assert !JobFieldError(SalaryRangeField, input, now);
  }

  /** `JobCreationForm.is_valid()`. */
  function CleanJobForm(input: JobInput, now: int): (r: Result<JobDraft, set<JobField>>)
    ensures r.Ok? <==> JobErrors(input, now) == {}
    ensures r.Err? ==> r.error == JobErrors(input, now)
    ensures r.Ok? ==> ParseSelectionType(input.selectionType).Some? && input.lastDate.Some? && r.value == DraftOf(input)
    ensures r.Ok? ==> r.value.lastDate >= now
    ensures r.Ok? ==> r.value.title != "" && |r.value.title| <= 200
    ensures r.Ok? ==> r.value.position != "" && |r.value.position| <= 100
    ensures r.Ok? ==> r.value.location != "" && |r.value.location| <= 100
    ensures r.Ok? ==> r.value.description != "" && r.value.criteria != ""
    ensures r.Ok? && r.value.salaryRange.Some? ==> r.value.salaryRange.value != "" && |r.value.salaryRange.value| <= 100
    ensures r.Ok? ==> !HasNul(r.value.title) && !HasNul(r.value.position) && !HasNul(r.value.location)
    ensures r.Ok? ==> !HasNul(r.value.description) && !HasNul(r.value.criteria)
    ensures r.Ok? && r.value.salaryRange.Some? ==> !HasNul(r.value.salaryRange.value)
  {
    var errors := JobErrors(input, now);
    if errors == {} then
      NoTextErrors(input, now);
      NoChoiceErrors(input, now);
      Ok(DraftOf(input))
    else
      Err(errors)
  }

  /** A title holding a NUL character after stripping is an error on that field, whatever else is submitted. */
  lemma NulTitleRejected(input: JobInput, now: int)
    requires HasNul(Strip(input.title))
    ensures var r := CleanJobForm(input, now);
            r.Err? && TitleField in r.error
  {
    assert JobFieldError(TitleField, input, now);
    var errs := JobErrors(input, now);
    assert TitleField in errs;
  }

  /** The view's save: the cleaned job, owned by the recruiter of the session and dated now. */
  function NewJob(draft: JobDraft, recruiter: nat, now: int): (j: Job)
    ensures j.recruiter == recruiter && j.postedDate == now
    ensures j.title == draft.title && j.position == draft.position && j.location == draft.location
    ensures j.description == draft.description && j.criteria == draft.criteria
    ensures j.selectionType == draft.selectionType && j.lastDate == draft.lastDate
    ensures j.salaryRange == draft.salaryRange && j.isActive == draft.isActive
  {
    Job(recruiter, draft.title, draft.description, draft.criteria, draft.selectionType, now, draft.lastDate,
        draft.isActive, draft.position, draft.location, draft.salaryRange)
  }

  /** `JobApplicationForm`: preference_order is required and must not be negative; None stands for a missing or non-numeric value. */
  function CleanPreference(raw: Option<int>): (r: Option<nat>)
    ensures r.Some? <==> raw.Some? && raw.value >= 0
    ensures r.Some? ==> r.value == raw.value
  {
    if raw.Some? && raw.value >= 0 then Some(raw.value as nat) else None
  }
}
