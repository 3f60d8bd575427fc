/**
 * The applications screen: the search predicate over applications, the
 * status-change dispatch in which "Interview" is two-phase (choose, then
 * submit the interview details), the query URL of the applications request,
 * and the initial tab.
 */
module Jobs {
  import opened Wrappers
  import opened Strings
  import opened Seqs

  /** An application; `jobTitle` is the populated posting's title, if any. */
  datatype Application = Application(id: string, firstName: string, lastName: string, email: string,
                                     jobTitle: Option<string>)

  datatype InterviewData = InterviewData(date: string, time: string, notes: string)

  const EmptyInterview := InterviewData("", "", "")

  /** A query parameter or title counts only when present and non-empty. */
  predicate Truthy(s: Option<string>) {
    s.Some? && s.value != ""
  }

  /** The search test; a missing or empty job title never matches. */
  predicate ApplicationMatches(search: string, app: Application) {
    || MatchesIgnoringCase(app.firstName, search)
    || MatchesIgnoringCase(app.lastName, search)
    || MatchesIgnoringCase(app.email, search)
    || (Truthy(app.jobTitle) && MatchesIgnoringCase(app.jobTitle.value, search))
  }

  function Matching(search: string): Application -> bool {
    a => ApplicationMatches(search, a)
  }

  /** `filteredApplications`. */
  function FilterApplications(apps: seq<Application>, search: string): seq<Application> {
    Filter(apps, Matching(search))
  }

  /** The filter keeps exactly the matching applications, each as often as
      before, in their order; an empty search keeps them all. */
  lemma FilterApplicationsSpec(apps: seq<Application>, search: string)
    ensures forall a :: a in FilterApplications(apps, search) <==> a in apps && ApplicationMatches(search, a)
    ensures forall a :: multiset(FilterApplications(apps, search))[a] ==
                       (if ApplicationMatches(search, a) then multiset(apps)[a] else 0)
    ensures SubsequenceOf(FilterApplications(apps, search), apps)
    ensures search == "" ==> FilterApplications(apps, search) == apps
  {
    forall a | a in apps && ApplicationMatches(search, a) ensures a in FilterApplications(apps, search) {
      FilterKeeps(apps, Matching(search), a);
    }
    forall a ensures multiset(FilterApplications(apps, search))[a] ==
      if ApplicationMatches(search, a) then multiset(apps)[a] else 0 {
      FilterCount(apps, Matching(search), a);
    }
    if search == "" {
      forall k | 0 <= k < |apps| ensures ApplicationMatches(search, apps[k]) {
        ContainsEmpty(LowerStr(apps[k].firstName));
      }
      FilterAll(apps, Matching(search));
    }
    FilterIsSubsequence(apps, Matching(search));
  }

  /** `applications.find(app => app._id === id)`. */
  function FindById(apps: seq<Application>, id: string): Option<Application> {
    if apps == [] then None
    else if apps[0].id == id then Some(apps[0])
    else FindById(apps[1..], id)
  }

  /** The search finds nothing exactly when no application has the id, and
      otherwise finds the first one that has it. */
  lemma {:induction false} FindByIdSpec(apps: seq<Application>, id: string)
    ensures FindById(apps, id).None? <==> forall k :: 0 <= k < |apps| ==> apps[k].id != id
    ensures FindById(apps, id).Some? ==>
      exists k :: 0 <= k < |apps| && apps[k] == FindById(apps, id).value && apps[k].id == id &&
        forall j :: 0 <= j < k ==> apps[j].id != id
  {
    if apps != [] && apps[0].id != id {
      var rest := apps[1..];
      FindByIdSpec(rest, id);
      assert forall k :: 1 <= k < |apps| ==> apps[k] == rest[k - 1];
      if FindById(rest, id).Some? {
        var k :| 0 <= k < |rest| && rest[k] == FindById(rest, id).value && rest[k].id == id &&
                 forall j :: 0 <= j < k ==> rest[j].id != id;
        assert apps[k + 1] == rest[k];
      }
    } else if apps != [] {
      assert apps[0] == FindById(apps, id).value;
    }
  }

  /** The status request, before any I/O: its path and body. */
  datatype StatusRequest = StatusRequest(path: string, status: string, interview: Option<InterviewData>)

  function StatusPath(applicationId: string): string {
    "/api/admin/jobs/applications/" + applicationId + "/status"
  }

  /** The base of `fetchApplications`' URL. */
  const ApplicationsPath := "/api/admin/jobs/applications"

  /** The query URL: page numbers are 1-based on the server. */
  function ApplicationsUrl(page: nat, rowsPerPage: nat, statusFilter: string, jobId: Option<string>): string {
    ApplicationsPath + "?page=" + NatToString(page + 1) + "&limit=" + NatToString(rowsPerPage)
      + "&status=" + statusFilter + (if Truthy(jobId) then "&jobId=" + jobId.value else "")
  }

  /**
   * The `jobId` parameter is appended, last, exactly when a job id is given;
   * otherwise the URL carries only page, limit and status; and the page
   * number in the URL reads back as `page + 1`.
   */
  lemma ApplicationsUrlSpec(page: nat, rowsPerPage: nat, statusFilter: string, jobId: Option<string>)
    ensures var base := ApplicationsUrl(page, rowsPerPage, statusFilter, None);
      && (Truthy(jobId) ==> ApplicationsUrl(page, rowsPerPage, statusFilter, jobId) == base + "&jobId=" + jobId.value)
      && (!Truthy(jobId) ==> ApplicationsUrl(page, rowsPerPage, statusFilter, jobId) == base)
      && base == ApplicationsPath + "?page=" + NatToString(page + 1) + "&limit=" + NatToString(rowsPerPage)
                 + "&status=" + statusFilter
    ensures ParseDigits(NatToString(page + 1)) == page + 1
  {
    ParseNatToString(page + 1);
  }

  /** The initial tab: the applications tab (0) when a job id is given, the
      postings tab (1) otherwise. */
  function InitialTab(jobId: Option<string>): (tab: nat)
    ensures tab == 0 <==> Truthy(jobId)
    ensures tab <= 1
  {
    if Truthy(jobId) then 0 else 1
  }

  /** The screen's state fields that the modelled handlers touch. */
  class ApplicationsScreen {
    const jobId: Option<string>
    var applications: seq<Application>
    var activeTab: nat
    var page: nat
    var rowsPerPage: nat
    var statusFilter: string
    var selectedApplication: Option<Application>
    var interviewDialogOpen: bool
    var interviewData: InterviewData

    constructor (jobId: Option<string>)
      ensures this.jobId == jobId && activeTab == InitialTab(jobId)
      ensures applications == [] && page == 0 && rowsPerPage == 10 && statusFilter == "all"
      ensures selectedApplication == None && !interviewDialogOpen && interviewData == EmptyInterview
    {
      this.jobId := jobId;
      applications, activeTab, page, rowsPerPage, statusFilter := [], InitialTab(jobId), 0, 10, "all";
      selectedApplication, interviewDialogOpen, interviewData := None, false, EmptyInterview;
    }

    /** The effect on page, size, filter, tab and job id: applications are
        requested, with the query URL, only on the applications tab. */
    method ApplicationsRequest() returns (url: Option<string>)
      ensures url.Some? <==> activeTab == 0
      ensures url.Some? ==> url.value == ApplicationsUrl(page, rowsPerPage, statusFilter, jobId)
    {
      if activeTab != 0 {
        return None;
      }
      var u := ApplicationsPath + "?page=" + NatToString(page + 1) + "&limit=" + NatToString(rowsPerPage)
               + "&status=" + statusFilter;
      if Truthy(jobId) {
        u := u + "&jobId=" + jobId.value;
      }
      url := Some(u);
    }

    /** `handleTabChange`. */
    method HandleTabChange(newValue: nat)
      modifies this`activeTab
      ensures activeTab == newValue
    {
      activeTab := newValue;
    }

    /**
     * `handleStatusChange`: choosing "Interview" sends nothing, selects the
     * application with that id (none if absent) and opens the dialog; any
     * other status is sent at once with only the status in the body.
     */
    method HandleStatusChange(applicationId: string, newStatus: string) returns (request: Option<StatusRequest>)
      modifies this`selectedApplication, this`interviewDialogOpen
      ensures newStatus == "Interview" ==>
        && request.None?
        && selectedApplication == FindById(applications, applicationId)
        && interviewDialogOpen
      ensures newStatus != "Interview" ==>
        && request == Some(StatusRequest(StatusPath(applicationId), newStatus, None))
        && selectedApplication == old(selectedApplication)
        && interviewDialogOpen == old(interviewDialogOpen)
    {
      if newStatus == "Interview" {
        selectedApplication := FindById(applications, applicationId);
        interviewDialogOpen := true;
        return None;
      }
      request := Some(StatusRequest(StatusPath(applicationId), newStatus, None));
    }

    /**
     * `handleInterviewSubmit`, with the server's answer as `serverOk`. With no
     * application selected, reading its id throws and nothing is sent;
     * otherwise the interview status and details are sent. Only a successful
     * answer closes the dialog and clears date, time and notes.
     */
    method HandleInterviewSubmit(serverOk: bool) returns (request: Option<StatusRequest>)
      modifies this`interviewDialogOpen, this`interviewData
      ensures request.Some? <==> selectedApplication.Some?
      ensures request.Some? ==>
        request.value == StatusRequest(StatusPath(selectedApplication.value.id), "Interview", Some(old(interviewData)))
      ensures request.Some? && serverOk ==> !interviewDialogOpen && interviewData == EmptyInterview
      ensures !(request.Some? && serverOk) ==>
        interviewDialogOpen == old(interviewDialogOpen) && interviewData == old(interviewData)
    {
      if selectedApplication.None? {
        return None;
      }
      request := Some(StatusRequest(StatusPath(selectedApplication.value.id), "Interview", Some(interviewData)));
      if serverOk {
        interviewDialogOpen := false;
        interviewData := EmptyInterview;
      }
    }
  }
}
