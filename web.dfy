/** The request methods the views branch on and the named pages they redirect to. */
module Web {
  datatype Method = Get | Post

  /** URL names used with `redirect(...)`; ViewApplicantsPage carries its `job_id` argument. */
  datatype Page =
    | LandingPage
    | LoginPage
    | StudentDashboardPage
    | RecruiterDashboardPage
    | AdminDashboardPage
    | EditProfilePage
    | SearchJobPage
    | ViewApplicantsPage(jobId: nat)
}
