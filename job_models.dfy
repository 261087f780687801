/** Jobs and applications: the selection types, the seven application statuses and the ledger's uniqueness rule. */
module JobModels {
  import opened Wrappers

  datatype SelectionType = Normal | FastTrack

  function SelectionTypeValue(t: SelectionType): string {
    match t
    case Normal => "normal"
    case FastTrack => "fast_track"
  }

  /** A submitted selection type is one of the two choices or nothing. */
  function ParseSelectionType(value: string): (r: Option<SelectionType>)
    ensures r.Some? ==> SelectionTypeValue(r.value) == value
    ensures r.None? <==> value != "normal" && value != "fast_track"
  {
    if value == "normal" then Some(Normal)
    else if value == "fast_track" then Some(FastTrack)
    else None
  }

  datatype Status = Pending | UnderReview | ShortlistedOa | CompletedOa | ShortlistedInterview | Selected | Rejected

  /** `STATUS_CHOICES`, in declaration order. */
  const StatusChoices: seq<Status> := [Pending, UnderReview, ShortlistedOa, CompletedOa, ShortlistedInterview, Selected, Rejected]

  const DefaultStatus := Pending

  /** The value stored in the `status` column. */
  function StatusValue(s: Status): string {
    match s
    case Pending => "pending"
    case UnderReview => "under_review"
    case ShortlistedOa => "shortlisted_oa"
    case CompletedOa => "completed_oa"
    case ShortlistedInterview => "shortlisted_interview"
    case Selected => "selected"
    case Rejected => "rejected"
  }

  /** Looks `value` up among the stored values of `choices`. */
  function FindStatus(choices: seq<Status>, value: string): (r: Option<Status>)
    ensures r.Some? ==> r.value in choices && StatusValue(r.value) == value
    ensures r.None? ==> forall s :: s in choices ==> StatusValue(s) != value
  {
    if choices == [] then None
    else if StatusValue(choices[0]) == value then Some(choices[0])
    else FindStatus(choices[1..], value)
  }

  /** The choice list names every status. */
  lemma StatusInChoices(s: Status)
    ensures s in StatusChoices
  {
    match s
    case Pending =>
    case UnderReview =>
    case ShortlistedOa =>
    case CompletedOa =>
    case ShortlistedInterview =>
    case Selected =>
    case Rejected =>
  }

  /** The status update's membership test against the stored values of the choices, returning the matching status. */
  function ParseStatus(value: string): (r: Option<Status>)
    ensures r.Some? ==> StatusValue(r.value) == value
    ensures r.None? <==> forall s :: StatusValue(s) != value
  {
    assert forall s: Status :: s in StatusChoices by {
      forall s: Status ensures s in StatusChoices {
        StatusInChoices(s);
      }
    }
    FindStatus(StatusChoices, value)
  }

  /** Every status is one of the seven choices, and its stored value parses back to it. */
  lemma StatusRoundTrip(s: Status)
    ensures s in StatusChoices
    ensures ParseStatus(StatusValue(s)) == Some(s)
  {
    var r := ParseStatus(StatusValue(s));
    assert r.Some?;
    match r.value
    case Pending =>
    case UnderReview =>
    case ShortlistedOa =>
    case CompletedOa =>
    case ShortlistedInterview =>
    case Selected =>
    case Rejected =>
  }

  /** A job posting. `recruiter` is the owning recruiter's user id (a single foreign key). */
  datatype Job = Job(
    recruiter: nat,
    title: string,
    description: string,
    criteria: string,
    selectionType: SelectionType,
    postedDate: int,
    lastDate: int,
    isActive: bool,
    position: string,
    location: string,
    salaryRange: Option<string>)

  /** An application of a student (by user id) to a job (by job id). */
  datatype Application = Application(student: nat, job: nat, status: Status, preferenceOrder: nat, appliedDate: int)

  /** The row a new application inserts: status pending, applied_date the current time. */
  function NewApplication(student: nat, job: nat, preferenceOrder: nat, now: int): (a: Application)
    ensures a.student == student && a.job == job
    ensures a.status == Pending && a.preferenceOrder == preferenceOrder && a.appliedDate == now
  {
    Application(student, job, DefaultStatus, preferenceOrder, now)
  }

  /** Whether the student already has an application to the job. */
  predicate HasApplied(apps: seq<Application>, student: nat, job: nat) {
    exists i :: 0 <= i < |apps| && apps[i].student == student && apps[i].job == job
  }

  /** The ledger's uniqueness rule: at most one application per (student, job) pair. */
  ghost predicate UniquePairs(apps: seq<Application>) {
    forall i, j :: 0 <= i < j < |apps| ==> apps[i].student != apps[j].student || apps[i].job != apps[j].job
  }

  /** Adding an application for a pair that has none keeps the pairs unique. */
  lemma AppendKeepsUniquePairs(apps: seq<Application>, a: Application)
    requires UniquePairs(apps)
    requires !HasApplied(apps, a.student, a.job)
    ensures UniquePairs(apps + [a])
    ensures HasApplied(apps + [a], a.student, a.job)
  {
    var s := apps + [a];
    assert s[|apps|] == a;
    forall i, j | 0 <= i < j < |s| ensures s[i].student != s[j].student || s[i].job != s[j].job {
      if j == |apps| {
        assert s[i] == apps[i];
      }
    }
  }

  /** A status change: the one row changes its status and nothing else. */
  function SetStatus(apps: seq<Application>, id: nat, status: Status): (r: seq<Application>)
    requires id < |apps|
    ensures |r| == |apps|
    ensures r[id].status == status
    ensures r[id] == Application(apps[id].student, apps[id].job, status, apps[id].preferenceOrder, apps[id].appliedDate)
    ensures forall i :: 0 <= i < |apps| && i != id ==> r[i] == apps[i]
  {
    apps[id := apps[id].(status := status)]
  }

  /** A status change keeps the pairs unique. */
  lemma SetStatusKeepsUniquePairs(apps: seq<Application>, id: nat, status: Status)
    requires id < |apps| && UniquePairs(apps)
    ensures UniquePairs(SetStatus(apps, id, status))
  {
    var r := SetStatus(apps, id, status);
    forall i, j | 0 <= i < j < |r| ensures r[i].student != r[j].student || r[i].job != r[j].job {
      assert r[i].student == apps[i].student && r[i].job == apps[i].job;
      assert r[j].student == apps[j].student && r[j].job == apps[j].job;
    }
  }
}
