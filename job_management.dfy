/**
 * The job-posting editor: the three list fields of the form (append a blank
 * entry, remove at an index, set at an index), the clean-up applied on
 * submit, the form values prepared for editing a stored posting, the
 * validation schema, and the search filter of the postings table.
 */
module JobManagement {
  import opened Wrappers
  import opened Strings
  import opened Seqs

  /** A salary bound in the form: the empty string, or a number. */
  datatype SalaryEntry = Blank | Entered(amount: int)

  datatype SalaryForm = SalaryForm(min: SalaryEntry, max: SalaryEntry, currency: string, displaySalary: bool)

  /** The Formik values of the posting form. */
  datatype JobForm = JobForm(
    title: string,
    department: string,
    location: string,
    jobType: string,
    experienceLevel: string,
    description: string,
    responsibilities: seq<string>,
    requirements: seq<string>,
    benefits: seq<string>,
    status: string,
    featured: bool,
    salary: SalaryForm)

  /** A salary as sent to and stored by the server: `null` or a number. */
  datatype Salary = Salary(min: Option<int>, max: Option<int>, currency: string, displaySalary: bool)

  /** The cleaned values sent on submit. */
  datatype JobPosting = JobPosting(
    title: string,
    department: string,
    location: string,
    jobType: string,
    experienceLevel: string,
    description: string,
    responsibilities: seq<string>,
    requirements: seq<string>,
    benefits: seq<string>,
    status: string,
    featured: bool,
    salary: Salary)

  /** A stored salary, any part of which may be missing. */
  datatype StoredSalary = StoredSalary(min: Option<int>, max: Option<int>, currency: Option<string>, displaySalary: Option<bool>)

  /** A posting as the server lists it; lists and salary may be missing. */
  datatype Job = Job(
    id: string,
    title: string,
    department: string,
    location: string,
    jobType: string,
    experienceLevel: string,
    description: string,
    responsibilities: Option<seq<string>>,
    requirements: Option<seq<string>>,
    benefits: Option<seq<string>>,
    status: string,
    featured: bool,
    salary: Option<StoredSalary>)

  /** `initialValues`. */
  const InitialValues := JobForm("", "", "", "Full-time", "Mid Level", "", [""], [""], [""], "Draft", false,
                                 SalaryForm(Blank, Blank, "USD", false))

  // ---------------------------------------------------------------------
  // List fields
  // ---------------------------------------------------------------------

  /** The three list fields, by their `fieldName`. */
  datatype ListField = Responsibilities | Requirements | Benefits

  function ListOf(v: JobForm, field: ListField): seq<string> {
    match field
    case Responsibilities => v.responsibilities
    case Requirements => v.requirements
    case Benefits => v.benefits
  }

  /** `formik.setFieldValue(fieldName, items)`: the one list is replaced. */
  function WithList(v: JobForm, field: ListField, items: seq<string>): (r: JobForm)
    ensures ListOf(r, field) == items
    ensures forall other :: other != field ==> ListOf(r, other) == ListOf(v, other)
    ensures r.(responsibilities := v.responsibilities, requirements := v.requirements, benefits := v.benefits) == v
  {
    match field
    case Responsibilities => v.(responsibilities := items)
    case Requirements => v.(requirements := items)
    case Benefits => v.(benefits := items)
  }

  /** Every list shows at least one row: the invariant the form keeps. */
  predicate ListsNonEmpty(v: JobForm) {
    v.responsibilities != [] && v.requirements != [] && v.benefits != []
  }

  // ---------------------------------------------------------------------
  // Submit clean-up
  // ---------------------------------------------------------------------

  /** The test `item => item.trim() !== ''`. */
  function NonBlank(): string -> bool {
    item => Trim(item) != ""
  }

  /** `values.salary.min ? Number(values.salary.min) : null`: the number
      input delivers a number, and a blank entry or 0 is falsy. */
  function SalaryBound(e: SalaryEntry): Option<int> {
    match e
    case Blank => None
    case Entered(n) => if n != 0 then Some(n) else None
  }

  /** `cleanedValues`. */
  function Cleanup(v: JobForm): JobPosting {
    JobPosting(v.title, v.department, v.location, v.jobType, v.experienceLevel, v.description,
               Filter(v.responsibilities, NonBlank()),
               Filter(v.requirements, NonBlank()),
               Filter(v.benefits, NonBlank()),
               v.status, v.featured,
               Salary(SalaryBound(v.salary.min), SalaryBound(v.salary.max), v.salary.currency, v.salary.displaySalary))
  }

  /** The clean-up of one list keeps exactly its entries that are not blank,
      each as often as before, in their order. */
  lemma {:induction false} CleanListSpec(items: seq<string>)
    ensures forall x :: x in Filter(items, NonBlank()) <==> x in items && !IsBlank(x)
    ensures forall x :: multiset(Filter(items, NonBlank()))[x] == if IsBlank(x) then 0 else multiset(items)[x]
    ensures SubsequenceOf(Filter(items, NonBlank()), items)
    ensures (forall k :: 0 <= k < |items| ==> !IsBlank(items[k])) ==> Filter(items, NonBlank()) == items
  {
    forall x ensures multiset(Filter(items, NonBlank()))[x] == if IsBlank(x) then 0 else multiset(items)[x] {
      TrimEmptyIffBlank(x);
      FilterCount(items, NonBlank(), x);
    }
    forall x | x in items && !IsBlank(x) ensures x in Filter(items, NonBlank()) {
      TrimEmptyIffBlank(x);
      FilterKeeps(items, NonBlank(), x);
    }
    FilterIsSubsequence(items, NonBlank());
    if forall k :: 0 <= k < |items| ==> !IsBlank(items[k]) {
      forall k | 0 <= k < |items| ensures NonBlank()(items[k]) {
        TrimEmptyIffBlank(items[k]);
      }
      FilterAll(items, NonBlank());
    }
  }

  /**
   * Submitting cleans all three lists the same way and changes nothing else
   * but the salary bounds: a bound becomes `null` exactly when it is blank or
   * 0, and otherwise is sent as its number; currency and display flag stay.
   */
  lemma CleanupSpec(v: JobForm)
    ensures var p := Cleanup(v);
      && p.responsibilities == Filter(v.responsibilities, NonBlank())
      && p.requirements == Filter(v.requirements, NonBlank())
      && p.benefits == Filter(v.benefits, NonBlank())
      && (p.salary.min.None? <==> v.salary.min.Blank? || v.salary.min == Entered(0))
      && (p.salary.max.None? <==> v.salary.max.Blank? || v.salary.max == Entered(0))
      && (v.salary.min.Entered? && v.salary.min.amount != 0 ==> p.salary.min == Some(v.salary.min.amount))
      && (v.salary.max.Entered? && v.salary.max.amount != 0 ==> p.salary.max == Some(v.salary.max.amount))
      && p.salary.currency == v.salary.currency && p.salary.displaySalary == v.salary.displaySalary
      && (p.title, p.department, p.location, p.jobType, p.experienceLevel, p.description, p.status, p.featured)
         == (v.title, v.department, v.location, v.jobType, v.experienceLevel, v.description, v.status, v.featured)
  {
  }

  // ---------------------------------------------------------------------
  // Edit preparation
  // ---------------------------------------------------------------------

  /** `list?.length > 0 ? list : ['']`. */
  function ListOrBlankRow(items: Option<seq<string>>): (r: seq<string>)
    ensures r != []
    ensures items.Some? && items.value != [] ==> r == items.value
    ensures items.None? || items.value == [] ==> r == [""]
  {
    if items.Some? && |items.value| > 0 then items.value else [""]
  }

  /** `salary?.min || ''`: a missing or zero bound is blank. */
  function EntryOf(bound: Option<int>): SalaryEntry {
    if bound.Some? && bound.value != 0 then Entered(bound.value) else Blank
  }

  /** `handleEditClick`'s `jobData`. */
  function PrepareEdit(job: Job): JobForm {
    var s := job.salary;
    JobForm(job.title, job.department, job.location, job.jobType, job.experienceLevel, job.description,
            ListOrBlankRow(job.responsibilities),
            ListOrBlankRow(job.requirements),
            ListOrBlankRow(job.benefits),
            job.status, job.featured,
            SalaryForm(
              EntryOf(if s.Some? then s.value.min else None),
              EntryOf(if s.Some? then s.value.max else None),
              if s.Some? && s.value.currency.Some? && s.value.currency.value != "" then s.value.currency.value else "USD",
              s.Some? && s.value.displaySalary == Some(true)))
  }

  /**
   * Editing shows every list with at least one row; an empty or missing list
   * becomes one blank row, the currency defaults to USD and the display flag
   * to false.
   */
  lemma PrepareEditSpec(job: Job)
    ensures ListsNonEmpty(PrepareEdit(job))
    ensures job.responsibilities.None? || job.responsibilities == Some([]) ==> PrepareEdit(job).responsibilities == [""]
    ensures job.requirements.None? || job.requirements == Some([]) ==> PrepareEdit(job).requirements == [""]
    ensures job.benefits.None? || job.benefits == Some([]) ==> PrepareEdit(job).benefits == [""]
    ensures job.salary.None? ==> PrepareEdit(job).salary == SalaryForm(Blank, Blank, "USD", false)
    ensures job.salary.Some? && job.salary.value.currency.None? ==> PrepareEdit(job).salary.currency == "USD"
    ensures job.salary.Some? && job.salary.value.displaySalary.None? ==> !PrepareEdit(job).salary.displaySalary
  {
  }

  /** What a stored list amounts to: a missing one has no entries. */
  function Stored(items: Option<seq<string>>): seq<string> {
    if items.Some? then items.value else []
  }

  /**
   * Opening a posting for editing and saving it unchanged sends its lists
   * without blank entries (a missing list as an empty one), and a salary
   * bound comes back unless it was missing or zero, when it becomes `null`.
   */
  lemma EditThenSave(job: Job)
    ensures var p := Cleanup(PrepareEdit(job));
      && p.responsibilities == Filter(Stored(job.responsibilities), NonBlank())
      && p.requirements == Filter(Stored(job.requirements), NonBlank())
      && p.benefits == Filter(Stored(job.benefits), NonBlank())
      && p.salary.min == (if job.salary.Some? && job.salary.value.min.Some? && job.salary.value.min.value != 0
                          then job.salary.value.min else None)
  {
    BlankRowCleans(job.responsibilities);
    BlankRowCleans(job.requirements);
    BlankRowCleans(job.benefits);
  }

  lemma BlankRowCleans(items: Option<seq<string>>)
    ensures Filter(ListOrBlankRow(items), NonBlank()) == Filter(Stored(items), NonBlank())
  {
    if items.None? || items.value == [] {
      assert Trim("") == "";
      assert Filter([""], NonBlank()) == Filter([""][1..], NonBlank());
      assert [""][1..] == [];
    }
  }

  // ---------------------------------------------------------------------
  // Validation schema
  // ---------------------------------------------------------------------

  /** The fields `jobSchema` constrains. */
  datatype SchemaField = Title | Department | Location | JobType | ExperienceLevel | Description | Status

  /** The schema's message for a field, if the field breaks its rule. Formik
      passes an empty string to the schema as a missing value, so "required"
      means non-empty; the description also needs 100 characters. */
  function SchemaError(v: JobForm, field: SchemaField): Option<string> {
    match field
    case Title => if v.title == "" then Some("Title is required") else None
    case Department => if v.department == "" then Some("Department is required") else None
    case Location => if v.location == "" then Some("Location is required") else None
    case JobType => if v.jobType == "" then Some("Job type is required") else None
    case ExperienceLevel => if v.experienceLevel == "" then Some("Experience level is required") else None
    case Description =>
      if v.description == "" then Some("Description is required")
      else if |v.description| < 100 then Some("Description must be at least 100 characters")
      else None
    case Status => if v.status == "" then Some("Status is required") else None
  }

  /** The form passes the schema and Formik calls `onSubmit`. */
  predicate JobSchemaValid(v: JobForm) {
    forall field :: SchemaError(v, field).None?
  }

  /** The schema holds exactly when the six required texts are non-empty and
      the description has at least 100 characters. */
  lemma JobSchemaValidSpec(v: JobForm)
    ensures JobSchemaValid(v) <==>
      && v.title != "" && v.department != "" && v.location != ""
      && v.jobType != "" && v.experienceLevel != "" && v.status != ""
      && |v.description| >= 100
  {
    if !JobSchemaValid(v) {
      var field :| SchemaError(v, field).Some?;
    } else {
      assert SchemaError(v, Title).None? && SchemaError(v, Department).None?;
      assert SchemaError(v, Location).None? && SchemaError(v, JobType).None?;
      assert SchemaError(v, ExperienceLevel).None? && SchemaError(v, Status).None?;
      assert SchemaError(v, Description).None?;
    }
  }

  /** The initial form is rejected: its title and description are empty. */
  lemma InitialValuesRejected()
    ensures !JobSchemaValid(InitialValues)
    ensures SchemaError(InitialValues, Description) == Some("Description is required")
  {
    assert SchemaError(InitialValues, Title).Some?;
  }

  // ---------------------------------------------------------------------
  // Postings table
  // ---------------------------------------------------------------------

  predicate JobMatches(search: string, job: Job) {
    || MatchesIgnoringCase(job.title, search)
    || MatchesIgnoringCase(job.department, search)
    || MatchesIgnoringCase(job.location, search)
  }

  function Matching(search: string): Job -> bool {
    j => JobMatches(search, j)
  }

  /** `filteredJobs`. */
  function FilterJobs(jobs: seq<Job>, search: string): seq<Job> {
    Filter(jobs, Matching(search))
  }

  /** The filter keeps exactly the postings whose title, department or
      location contains the search text ignoring case, each as often as
      before, in their order; an empty search keeps them all. */
  lemma FilterJobsSpec(jobs: seq<Job>, search: string)
    ensures forall j :: j in FilterJobs(jobs, search) <==> j in jobs && JobMatches(search, j)
    ensures forall j :: multiset(FilterJobs(jobs, search))[j] ==
                       (if JobMatches(search, j) then multiset(jobs)[j] else 0)
    ensures SubsequenceOf(FilterJobs(jobs, search), jobs)
    ensures search == "" ==> FilterJobs(jobs, search) == jobs
  {
    forall j | j in jobs && JobMatches(search, j) ensures j in FilterJobs(jobs, search) {
      FilterKeeps(jobs, Matching(search), j);
    }
    forall j ensures multiset(FilterJobs(jobs, search))[j] ==
      if JobMatches(search, j) then multiset(jobs)[j] else 0 {
      FilterCount(jobs, Matching(search), j);
    }
    FilterIsSubsequence(jobs, Matching(search));
    if search == "" {
      forall k | 0 <= k < |jobs| ensures JobMatches(search, jobs[k]) {
        ContainsEmpty(LowerStr(jobs[k].title));
      }
      FilterAll(jobs, Matching(search));
    }
  }

  /** The request a valid submit sends, before any I/O. */
  datatype JobRequest = Put(path: string, body: JobPosting) | Post(path: string, body: JobPosting)

  /** The editor's state fields that the modelled handlers touch. */
  class JobEditor {
    var values: JobForm
    var isEditMode: bool
    var selectedJob: Option<Job>

    /** Every list shows a row, and edit mode has the posting being edited. */
    ghost predicate Valid()
      reads this
    {
      ListsNonEmpty(values) && (isEditMode ==> selectedJob.Some?)
    }

    constructor ()
      ensures Valid() && values == InitialValues && !isEditMode && selectedJob == None
    {
      values, isEditMode, selectedJob := InitialValues, false, None;
    }

    /** `handleCreateClick`. */
    method HandleCreateClick()
      modifies this`values, this`isEditMode
      ensures Valid() && values == InitialValues && !isEditMode
    {
      isEditMode := false;
      values := InitialValues;
    }

    /** `handleEditClick`. */
    method HandleEditClick(job: Job)
      modifies this`values, this`isEditMode, this`selectedJob
      ensures Valid() && isEditMode && selectedJob == Some(job)
      ensures values == PrepareEdit(job)
    {
      PrepareEditSpec(job);
      isEditMode := true;
      selectedJob := Some(job);
      values := PrepareEdit(job);
    }

    /** `handleAddArrayField`: exactly one blank entry is appended to the
        named list. */
    method HandleAddArrayField(field: ListField)
      requires Valid()
      modifies this`values
      ensures Valid()
      ensures values == WithList(old(values), field, ListOf(old(values), field) + [""])
    {
      values := WithList(values, field, ListOf(values, field) + [""]);
    }

    /** `handleRemoveArrayField`: `splice(index, 1)` on a copy of the list. The
        remove button is shown only while the list has two rows or more, so
        the list keeps at least one. */
    method HandleRemoveArrayField(field: ListField, index: int)
      requires Valid()
      requires |ListOf(values, field)| > 1
      modifies this`values
      ensures Valid()
      ensures values == WithList(old(values), field, Spliced(ListOf(old(values), field), index))
    {
      var items := SpliceOne(ListOf(values, field), index);
      values := WithList(values, field, items);
    }

    /** `handleArrayFieldChange` for a row on screen: only that entry changes
        and the length stays. */
    method HandleArrayFieldChange(field: ListField, index: nat, value: string)
      requires Valid()
      requires index < |ListOf(values, field)|
      modifies this`values
      ensures Valid()
      ensures |ListOf(values, field)| == |ListOf(old(values), field)|
      ensures ListOf(values, field)[index] == value
      ensures forall j :: 0 <= j < |ListOf(values, field)| && j != index ==>
        ListOf(values, field)[j] == ListOf(old(values), field)[j]
      ensures forall other :: other != field ==> ListOf(values, other) == ListOf(old(values), other)
      ensures values == WithList(old(values), field, ListOf(values, field))
    {
      var items := AssignAt(ListOf(values, field), index, value);
      values := WithList(values, field, items);
    }

    /**
     * Submitting: Formik calls `onSubmit` only when the schema holds; it
     * sends the cleaned values, updating the posting being edited or
     * creating a new one.
     */
    method Submit() returns (request: Option<JobRequest>)
      requires Valid()
      ensures request.Some? <==> JobSchemaValid(values)
      ensures request.Some? && isEditMode ==>
        request.value == Put("/api/admin/jobs/postings/" + selectedJob.value.id, Cleanup(values))
      ensures request.Some? && !isEditMode ==>
        request.value == Post("/api/admin/jobs/postings", Cleanup(values))
    {
      if !JobSchemaValid(values) {
        return None;
      }
      var cleaned := Cleanup(values);
      if isEditMode {
        request := Some(Put("/api/admin/jobs/postings/" + selectedJob.value.id, cleaned));
      } else {
        request := Some(Post("/api/admin/jobs/postings", cleaned));
      }
    }
  }
}
