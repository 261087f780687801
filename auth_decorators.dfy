/**
 * The access guards wrapped around the views. A guard either lets the view run
 * (None) or redirects to the login page; there is no separate "forbidden" outcome.
 */
module Decorators {
  import opened Wrappers
  import opened AuthModels
  import opened Web

  /** `request.user`: anonymous, or a signed-in account with its primary key. */
  datatype Visitor = Anonymous | SignedIn(id: nat, user: User)

  predicate IsAuthenticated(v: Visitor) {
    v.SignedIn?
  }

  /** `student_required`. */
  function StudentRequired(v: Visitor): (r: Option<Page>)
    ensures r == None <==> v.SignedIn? && v.user.role == Student
    ensures r != None ==> r == Some(LoginPage)
  {
    if IsAuthenticated(v) && RoleValue(v.user.role) == "student" then None else Some(LoginPage)
  }

  /** `recruiter_required`. */
  function RecruiterRequired(v: Visitor): (r: Option<Page>)
    ensures r == None <==> v.SignedIn? && v.user.role == Recruiter
    ensures r != None ==> r == Some(LoginPage)
  {
    if IsAuthenticated(v) && RoleValue(v.user.role) == "recruiter" then None else Some(LoginPage)
  }

  /** Django's `login_required`, used by edit_profile and logout. */
  function LoginRequired(v: Visitor): (r: Option<Page>)
    ensures r == None <==> v.SignedIn?
    ensures r != None ==> r == Some(LoginPage)
  {
    if IsAuthenticated(v) then None else Some(LoginPage)
  }

  /** No visitor passes both role guards. */
  lemma GuardsExclusive(v: Visitor)
    ensures !(StudentRequired(v) == None && RecruiterRequired(v) == None)
  {
  }

  /** Passing a guard makes the in-view re-check (`is_student()` / `is_recruiter()`) true. */
  lemma GuardsImplyRolePredicates(v: Visitor)
    ensures StudentRequired(v) == None ==> IsStudent(v.user)
    ensures RecruiterRequired(v) == None ==> IsRecruiter(v.user)
  {
  }
}
