# InternSync placement portal — verified model of the core

InternSync is a Django placement portal. Students sign up, upload a CV, search for jobs and
apply to them. Recruiters post jobs, read the applications to their own jobs and move each one
through a seven-step status workflow. This project models the deterministic core of that
portal in Dafny and proves properties of the model.

The ORM tables become one in-memory store, the class `Store.Database`. It holds users, student
profiles, recruiter profiles, jobs and applications. A row's primary key is its position in its
table, and profiles are keyed by the id of the user they belong to. The store keeps one
invariant, `Valid()`:

- usernames and emails are unique;
- an account has a student profile exactly when its role is student, and a recruiter profile
  exactly when its role is recruiter;
- every job belongs to an existing recruiter;
- every application links an existing student to an existing job;
- no two applications share the same (student, job) pair.

Every view that writes to the store is a method that `modifies` the store and keeps
`Valid()`. Each returns an outcome datatype that stands in for the rendered page or the
redirect.

Views that only read are functions over the store, or methods without `modifies` where the source loops. Request data comes in as parameters: the
session's user id, the HTTP method, the posted fields, the uploaded file, and the current
time as an integer.

Modules follow the source files:

- `AuthModels`, `Decorators`, `AuthForms` and `AuthViews` model `authentication/`.
- `JobModels`, `JobForms` and `JobViews` model `functionality/`.
- `Store` is the database.
- `Wrappers`, `Text`, `Collections`, `Web` and `CvFiles` are shared helpers:
  - `Option`/`Result`;
  - `strip`, `lower`, `endswith` and `icontains`;
  - filtering and ordering of id sequences;
  - page names;
  - the CV file reference.

Places where the code's behaviour is easy to misread, and what the model does there:

- `clean_last_date_to_apply` and `apply_job` reject a deadline only when it is strictly
  before now, so a deadline equal to now is accepted. `search_job` and the recruiter dashboard
  list only jobs whose deadline is strictly after now. `JobViews.DeadlineBoundary` proves that
  a job due exactly now cannot be found by search, yet a direct POST still applies to it.
- The two CV validators really differ. The upload form matches the extension case-sensitively
  and demands a file. The profile form lowercases the name first and lets the file be absent.
  Before either validator runs, the form's file field rejects a submitted file whose name is
  longer than 100 characters, or one with no content; a CV already stored is not checked again
  by the field.
- The email an account is saved with, and checked for uniqueness by, has its domain
  lower-cased, as the user model's own cleaning does; "Bob@Example.COM" and
  "Bob@example.com" are the same address to the store.
- `upload_cv` keeps the CV-approval flag. `edit_profile` clears it whenever a file is submitted.
- A recruiter may move an application from any status to any other.

## Model

| member | source | states |
|---|---|---|
| AuthModels.RolePredicates | authentication/models.py:21-25 | `is_student` holds exactly for role student and `is_recruiter` exactly for role recruiter, so never both |
| AuthModels.NewStudentProfile | authentication/models.py:27-37 | a fresh student profile has no CV (`has_cv` false), is not approved and has no job |
| AuthModels.HasCv | authentication/models.py:36-37 | a profile has a CV exactly when its file reference carries a name |
| AuthModels.FullName | functionality/views.py:217 | the full name is the first name, a space and the last name with only the surrounding whitespace cut off: a contiguous run of that text, with nothing but whitespace before and after it, no whitespace at either end, and empty for an account without first and last name |
| AuthModels.NormalizeEmail | authentication/models.py:4-16 | an address keeps its length; without an '@' it is kept whole |
| AuthModels.NormalizeEmailLowersDomain | authentication/models.py:4-16 | everything up to the last '@' is kept as typed, and every character after it is lower-cased |
| AuthModels.NormalizeEmailIdempotent | authentication/models.py:4-16 | normalising an address twice gives what normalising it once gives |
| AuthModels.DomainCaseIgnored | authentication/models.py:16 | "Bob@Example.COM" normalises to "Bob@example.com" |
| Decorators.StudentRequired | authentication/decorators.py:8-12 | passes exactly a signed-in student; every other visitor is redirected to the login page, with no separate forbidden outcome |
| Decorators.RecruiterRequired | authentication/decorators.py:14-18 | passes exactly a signed-in recruiter; every other visitor is redirected to the login page |
| Decorators.LoginRequired | authentication/views.py:121-123 | passes exactly a signed-in visitor; others are redirected to the login page |
| Decorators.GuardsExclusive | authentication/decorators.py:8-18 | no visitor passes both the student and the recruiter guard |
| Decorators.GuardsImplyRolePredicates | functionality/views.py:28-32 | a visitor who passed a guard satisfies `is_student` or `is_recruiter` respectively, so the in-view re-checks never fire |
| AuthForms.SignupRoleChoice | authentication/forms.py:9-14 | only "student" and "recruiter" are selectable; admin never results |
| AuthForms.SignupErrors | authentication/forms.py:5-36 | a field is in the error set exactly when its own rule fails: a username blank, over 150 characters, holding a NUL or taken; an email blank, over 254 characters, holding a NUL, or taken once its domain is lower-cased; a password blank, over 128 characters or holding a NUL; a role that is not a choice; a company name over 50 characters or holding a NUL, or a recruiter without one |
| AuthForms.CleanSignup | authentication/forms.py:5-43 | accepts exactly when there are no field errors, otherwise returns those errors; accepted data has the stripped, unused username, the stripped email with its domain lower-cased and unused in that form, a non-admin role, a company name of at most 50 characters without a NUL, a non-empty company name for recruiters, and a stripped password that is non-empty, at most 128 characters and free of NUL |
| AuthForms.RecruiterNeedsCompany | authentication/forms.py:33-34 | a recruiter sign-up with a blank company name is rejected with an error on company_name |
| AuthForms.LongPasswordRejected | authentication/forms.py:16-23 | a password longer than the user model's 128-character column, once stripped, is rejected with an error on the password |
| AuthForms.StudentNeedsNoCompany | authentication/forms.py:19-34 | a student sign-up has an error on company_name exactly when the stripped name is longer than 50 characters or holds a NUL: the recruiter's rule never applies to students |
| AuthForms.DomainCaseClash | authentication/forms.py:5-26 | signing up as "Bob@Example.COM" when "Bob@example.com" is stored fails with an error on the email |
| AuthForms.CleanAccount | authentication/forms.py:45-54 | the username and email are accepted exactly when, stripped, they are non-empty, within length, free of NUL and unused by other accounts, the email compared with its domain lower-cased; the saved email is that normalised one; an error names each failing field, in both directions |
| AuthForms.CleanCompanyName | authentication/forms.py:75-81 | a company name is accepted exactly when, stripped, it is non-empty, at most 50 characters and free of NUL; the accepted name is the stripped one |
| AuthForms.CleanProfileCv | authentication/forms.py:64-73 | an absent CV is accepted unchanged; a present one is rejected as unsupported exactly when its lower-cased name has none of the three extensions, and as too large exactly when it exceeds 5 MiB; an accepted CV is returned unchanged |
| AuthForms.ValidateProfileCv | authentication/forms.py:57-73 | a submitted file with a name over 100 characters, or with no content, is rejected before clean_cv; otherwise clean_cv judges the submitted file, or the stored one when nothing is submitted; an accepted CV is the file the field cleaned to |
| AuthForms.LongNameRejected | authentication/models.py:29 | a 101-character name is rejected by the profile form |
| AuthForms.UpperCaseExtensionAccepted | authentication/forms.py:68 | the profile form accepts "CV.PDF" |
| CvFiles.BoundFile | authentication/forms.py:64-66 | the file a form's CV field cleans to is the submitted file when there is one, otherwise the stored one |
| CvFiles.CleanFileField | authentication/models.py:29 | with nothing submitted the stored file passes unchecked; a submitted file passes exactly when its name has at most 100 characters and it has content, and the name check comes first |
| CvFiles.SavedFile | authentication/models.py:29 | after an accepted upload the profile holds a present file of the uploaded size; with nothing submitted it keeps the stored file |
| JobModels.ParseSelectionType | functionality/models.py:6-17 | only "normal" and "fast_track" parse, each to the type whose value it is |
| JobModels.ParseStatus | functionality/views.py:150-151 | a value parses exactly when some status has it as its stored value, and then to that status |
| JobModels.StatusInChoices | functionality/models.py:37-45 | every status is among the seven choices |
| JobModels.FindStatus | functionality/views.py:150-151 | finds a choice whose value is the given string, or reports that no choice has that value |
| JobModels.StatusRoundTrip | functionality/models.py:37-49 | every status is one of the seven choices, and parsing its value gives it back |
| JobModels.NewApplication | functionality/models.py:47-51 | a new application has the given student, job, preference and date, and status pending |
| JobModels.AppendKeepsUniquePairs | functionality/models.py:53-54 | adding an application for a pair not yet applied keeps (student, job) unique and records the pair |
| JobModels.SetStatus | functionality/views.py:154-155 | changes the status of one application and leaves every other field and every other application unchanged |
| JobModels.SetStatusKeepsUniquePairs | functionality/models.py:53-54 | a status change keeps (student, job) unique |
| JobForms.CleanUploadCv | functionality/forms.py:14-26 | a missing CV, a name without a case-sensitive .pdf/.doc/.docx ending, and a size over 5 MiB are each rejected with their own error, checked in that order; an accepted CV is returned unchanged |
| JobForms.ValidateUploadCv | functionality/forms.py:6-26 | a submitted file with a name over 100 characters, or with no content, is rejected before clean_cv; otherwise clean_cv judges the submitted file, or the stored one when nothing is submitted; an accepted CV is the file the field cleaned to |
| JobForms.EmptyUploadRejected | functionality/forms.py:6-16 | an empty "cv.pdf" passes clean_cv alone but the upload form rejects it as empty |
| JobForms.StoredCvKeepsPassing | functionality/forms.py:14-26 | with nothing submitted, a stored CV that clean_cv accepts is accepted again unchanged |
| JobForms.UploadSizeBoundary | functionality/forms.py:22-23 | exactly 5 MiB is accepted and one byte more is too large |
| JobForms.UpperCaseExtensionRejected | functionality/forms.py:18-19 | the upload form rejects "CV.PDF", which the profile form accepts |
| JobForms.UploadAcceptanceImpliesProfileAcceptance | functionality/forms.py:14-26 | every CV the upload form's clean_cv accepts is accepted by the profile form's clean_cv too |
| JobForms.UploadFormImpliesProfileForm | functionality/forms.py:6-26 | every submission the upload form accepts, the profile form accepts with the same file |
| JobForms.CleanDeadline | functionality/forms.py:57-61 | a deadline is rejected exactly when it is present and earlier than now; otherwise it passes through unchanged |
| JobForms.JobErrors | functionality/forms.py:28-32 | a field is in the error set exactly when its own rule fails: a required text blank, over its length or holding a NUL, an unknown selection type, a missing or past deadline, a salary range over 100 characters or holding a NUL |
| JobForms.DraftOf | functionality/forms.py:28-32 | the cleaned job carries the stripped title, position, location, description and criteria, the parsed selection type, the deadline and the active flag; the salary range is none when blank and the stripped text otherwise |
| JobForms.CleanJobForm | functionality/forms.py:28-61 | accepts exactly when there are no field errors, otherwise returns them; accepted data is the cleaned draft, with a deadline not before now, a non-empty title of at most 200 characters, a non-empty position and location of at most 100, a non-empty description and criteria, and a salary range of at most 100; no accepted text holds a NUL |
| JobForms.NulTitleRejected | functionality/forms.py:28-32 | a title holding a NUL after stripping is rejected with an error on the title |
| JobForms.NewJob | functionality/views.py:37-39 | the saved job belongs to the posting recruiter, is dated now, and carries every cleaned field of the form unchanged |
| JobForms.CleanPreference | functionality/forms.py:63-73 | a preference is accepted exactly when it is given and non-negative, and is kept as given |
| Store.ProfilesDisjoint | authentication/models.py:27-41 | no account has both a student and a recruiter profile |
| Store.AddApplicationKeepsWellFormed | functionality/models.py:47-54 | adding an application of an existing student to an existing job they have not applied to keeps the store invariant |
| Store.SetStatusKeepsWellFormed | functionality/views.py:154-155 | a status change keeps the store invariant |
| Store.AddJobKeepsWellFormed | functionality/views.py:37-39 | adding a job owned by an existing recruiter keeps the store invariant |
| Store.RenameKeepsUnique | authentication/models.py:4-16 | renaming an account to a username and email no other account uses keeps usernames and emails unique |
| Store.RenameKeepsProfiles | authentication/views.py:137-138 | renaming an account does not change which profiles it has |
| Store.RenameKeepsWellFormed | authentication/views.py:137-138 | an account edit that passed the uniqueness checks keeps the store invariant |
| Store.AddAccountKeepsUnique | authentication/models.py:4-16 | adding an account with an unused username and email keeps both unique |
| Store.AddAccountKeepsProfiles | authentication/views.py:27-33 | adding a student with a student profile, a recruiter with a recruiter profile, or an admin with none keeps profiles matched to roles |
| Store.AddAccountKeepsWellFormed | authentication/views.py:22-33 | a sign-up write keeps the store invariant |
| Store.Database.Identify | authentication/decorators.py:9-10 | a session names a signed-in user exactly when it holds the id of an existing account, and then the visitor is that account |
| Store.Database.AddJob | functionality/views.py:37-39 | appends the job and changes no other table |
| Store.Database.AddApplication | functionality/views.py:125-128 | appends the application, changes no other table and keeps (student, job) unique |
| Store.Database.SaveStatus | functionality/views.py:154-155 | updates the one application's status and changes no other table |
| Store.Database.SaveStudent | functionality/views.py:15-17 | replaces one student profile and changes no other table |
| Store.Database.SaveRecruiter | authentication/views.py:139 | replaces one recruiter profile and changes no other table |
| Store.Database.SaveAccount | authentication/views.py:138 | changes one account's username and email and nothing else |
| Store.Database.AddAccount | authentication/views.py:22-33 | appends the account and creates exactly the profile its role needs: a fresh student profile, a recruiter profile with the company name, or none for an admin |
| JobViews.UploadCv | functionality/views.py:12-26 | only students pass; a POST whose file the upload form accepts stores it without touching the approval flag, and any other request writes nothing and reports the form's error |
| JobViews.CreateJob | functionality/views.py:28-45 | only recruiters pass; a valid POST appends exactly one job owned by the caller, and anything else writes nothing and reports the field errors |
| JobViews.OpenJobs | functionality/views.py:53 | exactly the jobs that are active with a deadline after now, listed in id order, an order the model picks |
| JobViews.FilterBySearch | functionality/views.py:62-69 | keeps exactly the jobs whose title, position, description or company name contains the query case-insensitively; a blank query keeps all |
| JobViews.FilterByLocation | functionality/views.py:72-74 | keeps exactly the jobs at the given location; a blank location keeps all |
| JobViews.FilterBySelectionType | functionality/views.py:77-79 | keeps exactly the jobs of the given selection type; a blank type keeps all |
| JobViews.SearchResults | functionality/views.py:53-79 | a job is a result exactly when it is open, matches the query, the location and the selection type; results have no repeats and are listed in id order, an order the model picks |
| JobViews.PageCount | functionality/views.py:82-84 | the number of 10-job pages needed to hold all results, and at least one |
| JobViews.PageNumber | functionality/views.py:83-84 | a missing page number gives page 1, one in range is kept, one out of range gives the last page |
| JobViews.PageOf | functionality/views.py:82-84 | a page holds at most 10 results, is non-empty when there are results, and is the matching slice of the results in the model's order |
| JobViews.PagesCoverResults | functionality/views.py:82-84 | every result appears on its page, at its position |
| JobViews.Locations | functionality/views.py:56 | exactly the locations of all jobs, active or not |
| JobViews.AppliedJobIds | functionality/views.py:59 | exactly the jobs the student has applied to |
| JobViews.JobAvailable | functionality/views.py:100 | a job is found exactly when its id names an existing job that is active; a missing or inactive job is "not found" |
| JobViews.SearchJob | functionality/views.py:47-92 | only students pass; the page shown is the requested page of the search results, with the locations and the caller's applied-job ids |
| JobViews.ApplyDecision | functionality/views.py:94-142 | the checks run in order and the first failure wins: the guard, then job missing or inactive, then already applied, then deadline before now, then (on POST) no CV; a POST passing them all with a valid preference applies, otherwise the form is shown with the CV flags |
| JobViews.ApplyJob | functionality/views.py:94-142 | follows ApplyDecision; when it applies, exactly one pending application of this student to this job is appended, and otherwise the store is unchanged |
| JobViews.ReapplyIsRejected | functionality/views.py:104-106 | straight after a successful application, applying again to the same job is answered "already applied" |
| JobViews.DeadlineBoundary | functionality/views.py:53-111 | a job due exactly now is not among the search results, yet a POST still applies to it |
| JobViews.InScope | functionality/views.py:147 | an application is found exactly when its id names an existing application to a job the recruiter posted; any other id is "not found" |
| JobViews.RecruiterApplications | functionality/views.py:185 | exactly the applications to the recruiter's own jobs, without repeats |
| JobViews.OrderByDate | functionality/views.py:185 | the same applications, newest first |
| JobViews.FilterByStatus | functionality/views.py:187-189 | keeps exactly the applications whose status value equals the filter; a blank filter keeps all; order is kept |
| JobViews.FilterByJob | functionality/views.py:193-195 | keeps exactly the applications to the given job; no filter keeps all; order is kept |
| JobViews.SortedByDateIsNewestFirst | functionality/views.py:185 | a list sorted by descending date is newest first pairwise |
| JobViews.FilterKeepsOrder | functionality/views.py:187-195 | filtering a newest-first list leaves it newest first |
| JobViews.ApplicationList | functionality/views.py:185-195 | an application is listed exactly when it belongs to one of the recruiter's jobs and passes both filters; the list has no repeats and is newest first |
| JobViews.RecruiterJobs | functionality/views.py:191 | exactly the recruiter's own jobs, listed in id order, an order the model picks |
| JobViews.AllApplications | functionality/views.py:181-202 | only recruiters pass; the page shows the recruiter's filtered application list and own jobs |
| JobViews.UpdateApplicationStatus | functionality/views.py:144-178 | only recruiters pass; an application outside the caller's jobs is not found; a valid status changes only that application's status, while an invalid one changes nothing; the fresh filtered list is shown either way |
| JobViews.AnyStatusAccepted | functionality/views.py:150-155 | every status value is accepted and any status can be moved to any other |
| JobViews.DownloadCv | functionality/views.py:205-220 | only recruiters pass; an application outside the caller's jobs is not found; a student without a CV sends the caller back to the job's applicants; otherwise the CV is served as the student's full name followed by "_CV.pdf" |
| AuthViews.SignupRedirect | authentication/views.py:36 | students go to the student dashboard and everyone else to the recruiter dashboard |
| AuthViews.Signup | authentication/views.py:17-43 | a valid POST adds exactly one account and exactly the profile of its role, a recruiter's carrying the company name, and redirects by role; an invalid form or a GET writes nothing and shows the errors |
| AuthViews.LoginRedirect | authentication/views.py:54-58 | students, recruiters and admins each go to their own dashboard |
| AuthViews.UserLogin | authentication/views.py:46-60 | a POST whose credentials authenticate an existing account signs it in and redirects by role; anything else shows the form |
| AuthViews.UserLogout | authentication/views.py:62-65 | a signed-in visitor ends on the landing page; others are sent to log in |
| AuthViews.StudentDashboard | authentication/views.py:67-74 | only students pass, and they see their own approval and job flags |
| AuthViews.ActiveJobs | authentication/views.py:82-85 | exactly the recruiter's jobs that are active with a deadline after now, listed in id order, an order the model picks |
| AuthViews.ApplicationsFor | authentication/views.py:87 | exactly the applications to the given job, without repeats |
| AuthViews.ApplicationCountIsNumberOfApplications | authentication/views.py:86-87 | each job's count is the number of applications to that job |
| AuthViews.SelectedIsNotInProcess | authentication/views.py:103-110 | "selected" is not one of the four in-process statuses |
| AuthViews.Stats | authentication/views.py:100-111 | the active-job count is the number of active jobs, the total counts all the recruiter's applications, and in-process plus positions-filled never exceeds the total |
| AuthViews.InProcessCountIsNumberInProcess | authentication/views.py:103-106 | in_process counts exactly the recruiter's applications in under review, shortlisted for the assessment, completed the assessment or shortlisted for interview |
| AuthViews.PositionsFilledIsNumberSelected | authentication/views.py:107-110 | positions_filled counts exactly the recruiter's applications marked selected |
| AuthViews.RecentApplications | authentication/views.py:91-97 | the first 10 of the recruiter's newest-first applications that pass the optional status filter, or all of them when there are fewer: exactly min(10, n) are shown, where n is the size of that list; none left out is newer than one shown |
| AuthViews.TakeKeepsNewest | authentication/views.py:97 | the first n of a newest-first list are newest first, and nothing after them is newer |
| AuthViews.RecruiterDashboard | authentication/views.py:76-119 | only recruiters pass; each active job is shown with its application count, in order, besides the recent applications and the statistics |
| AuthViews.EditProfile | authentication/views.py:121-165 | only signed-in non-admins can save; an admin is turned away without any write; nothing is saved unless both the account form and the profile form of the role are valid; a submitted CV file clears the approval flag |
| Collections.SortDesc | functionality/views.py:185 | orders ids by descending key and is a permutation of its input |
| Text.ContainsAt | functionality/views.py:64-69 | a string contains another exactly when the other occurs at some position |
| Text.Strip | authentication/forms.py:15-19 | the stripping every form CharField applies: the result is no longer than the input and has no whitespace at either end, and it is empty exactly when the input is all whitespace |
| Text.StripKeepsMiddle | authentication/forms.py:15-19 | the stripped value is one contiguous run of the input, and everything cut off before and after it is whitespace |
| Text.StripIdempotent | authentication/forms.py:15-19 | stripping a stripped value changes nothing |
| Text.InRangesExactly | authentication/forms.py:15-19 | a code point is whitespace exactly when one of the listed ranges holds it |
| Text.SeparatorsAreSpace | authentication/forms.py:15-19 | the separators 0x1C and 0x1F and the no-break space are whitespace, a letter is not |
| Text.StripSeparators | authentication/forms.py:15-19 | stripping removes information separators around a word |
| Text.Lower | authentication/forms.py:68 | lower-casing keeps the length and maps each character by itself |
| Text.LastIndexOf | authentication/models.py:16 | finds the last occurrence of a character, or reports that there is none |

## Left out

- HTML rendering, `messages` notifications and the `render`/`redirect` mechanics. Each view returns an outcome datatype naming the page or redirect instead.
- Sessions, `login`, `authenticate`, `logout` and password hashing. These are library calls. The session is a parameter holding a user id. `authenticate` is the `authenticated` parameter of `AuthViews.UserLogin`. The password is checked on the form (non-blank, at most 128 characters, no NUL) and then dropped: the model stores no password.
- The landing page, the admin dashboard, the profile page and the URL tables. They hold no logic. The model assumes that the names 'home', 'profile', 'admin_dashboard' and 'view_applicants' resolve. No URL table in the source defines them, and `redirect()` raises when a name does not resolve; that failure is not modelled.
- File storage. The model keeps no file contents; a file is a name and a size. Storage's rewriting of upload names is not modelled: `get_valid_name` turning spaces into `_` and dropping other characters outside letters, digits, `-`, `_` and `.`, and `get_available_name` renaming a clashing name and shortening one longer than the 100-character column. `CvFiles.SavedFile` therefore promises only that the saved file is present with the uploaded size, not its stored name.
- `FileResponse`'s exception path in `download_cv`. Opening the file is input/output, so the model shows only the CV-presence check.
- Django's built-in username syntax check and email-address syntax check. These are library validators; the model checks only that the values are non-blank, unique and within length.
- Lower-casing of characters outside ASCII, in the profile form's extension test, the email domain and `icontains`. Only ASCII letters change case in the model.
- Date parsing and the widget formats. A timestamp is an integer, and `timezone.now()` is the `now` parameter.
- A job or page value in the query string that is not a number. It makes the source raise or fall back inside the library. The model takes these values as optional integers.
- CleanPreference: the model accepts any non-negative preference, with no upper bound. The largest value a positive-integer column takes depends on the database backend, which is not part of this model.
- The 1 to 10 range on preference_order. It is only an HTML widget attribute, which the server never enforces.
- The column defaults `preference_order = 1`, `selection_type = normal` and `is_active = True`. The views never fall back on them, because each of these fields is taken from a submitted form.
- The order of rows with equal dates. The database's order for ties is unspecified.
- The order of unordered query sets. Search results, a recruiter's jobs and the dashboard's active jobs carry no ordering in the source, so the database picks it. The model lists them in id order. Which jobs land on each search page therefore follows that chosen order.
- CleanSignup: the username is not put through Unicode NFKC normalisation before its uniqueness test and the save, as the user model's cleaning does; the model has no Unicode normalisation.
- SignupErrors: the username uniqueness test compares the stripped username without NFKC normalisation, so two names that differ only in compatibility characters count as different.
- CleanAccount: as for sign-up, the username is not NFKC-normalised.
- CleanUploadCv: models the upload form's clean_cv alone. The file field's own rejections of an over-long name and an empty file run before it, in JobForms.ValidateUploadCv, which the view uses.
- CleanProfileCv: models the profile form's clean_cv alone. The file field's rejections are in AuthForms.ValidateProfileCv, which the view uses.
- The text of the validation error messages. The model reports which check failed, as a `CvError` or a set of fields.
- Transactions, and the race between the already-applied check and the insert. Concurrency is out of scope; uniqueness is a store invariant instead.
- The in-view `is_student()`/`is_recruiter()` re-checks in `create_job`, `search_job` and `apply_job`. They cannot fire after the guards, which `Decorators.GuardsImplyRolePredicates` proves. The model therefore has no branch for them.
- Deleting rows, and the cascade on delete. No view in the core deletes anything.
