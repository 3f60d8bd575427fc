/**
 * The subscription-plan screen: the plan form and its handlers (billing
 * cycles, features, field edits, the six-rule validator that gates saving),
 * the search filter and page slice of the plan table, and the yearly-discount
 * badge. Prices are integer cents.
 */
module SubscriptionPlans {
  import opened Wrappers
  import opened Strings
  import opened Seqs

  /** Prices in cents. */
  datatype Price = Price(monthly: int, yearly: int)

  /** `formData`. */
  datatype PlanForm = PlanForm(
    name: string,
    description: string,
    features: seq<string>,
    price: Price,
    billingCycles: seq<string>,
    trialPeriodDays: int,
    tier: int,
    isActive: bool,
    isPopular: bool,
    isFeatured: bool)

  /** A plan as the server lists it. */
  datatype Plan = Plan(id: string, details: PlanForm)

  /** The form of a new plan. */
  const EmptyForm := PlanForm("", "", [], Price(0, 0), ["monthly", "yearly"], 0, 1, true, false, false)

  // ---------------------------------------------------------------------
  // Billing cycles
  // ---------------------------------------------------------------------

  /** `handleBillingCycleChange`: a present cycle is removed unless it is the
      only one; an absent cycle is appended. */
  function ToggleCycle(cycles: seq<string>, cycle: string): seq<string> {
    if cycle in cycles then
      if |cycles| > 1 then Filter(cycles, Other(cycle)) else cycles
    else cycles + [cycle]
  }

  /**
   * On a list without duplicates the toggle appends an absent cycle at the
   * end, removes a present one when another remains, and is a no-op on the
   * only remaining cycle; so the list is never empty afterwards and keeps
   * having no duplicates.
   */
  lemma {:induction false} ToggleCycleSpec(cycles: seq<string>, cycle: string)
    requires NoDup(cycles)
    ensures var r := ToggleCycle(cycles, cycle);
      && r != [] && NoDup(r)
      && (cycle !in cycles ==> r == cycles + [cycle])
      && (cycles == [cycle] ==> r == cycles)
      && (cycle in cycles && |cycles| > 1 ==>
            cycle !in r && |r| == |cycles| - 1 && SubsequenceOf(r, cycles))
  {
    var r := ToggleCycle(cycles, cycle);
    if cycle !in cycles {
      NoDupAppend(cycles, cycle);
    } else if |cycles| > 1 {
      forall t ensures multiset(r)[t] == if t != cycle then multiset(cycles)[t] else 0 {
        FilterCount(cycles, Other(cycle), t);
      }
      NoDupCount(cycles, cycle);
      assert multiset(cycles)[cycle] == 1;
      assert multiset(cycles) == multiset(r) + multiset{cycle};
      assert |multiset(cycles)| == |multiset(r)| + 1;
      FilterNoDup(cycles, Other(cycle));
      FilterIsSubsequence(cycles, Other(cycle));
    }
  }

  /** Without the no-duplicates invariant the guard is not enough: a list
      holding one cycle twice is emptied. */
  lemma ToggleCycleNeedsNoDup()
    ensures ToggleCycle(["monthly", "monthly"], "monthly") == []
  {
    var s := ["monthly", "monthly"];
    assert Filter(s[1..], Other("monthly")) == [];
  }

  // ---------------------------------------------------------------------
  // Features and field edits
  // ---------------------------------------------------------------------

  /** `addFeature`: the features and the feature input box afterwards. */
  function AddFeature(features: seq<string>, input: string): (seq<string>, string) {
    if Trim(input) != "" then (features + [Trim(input)], "") else (features, input)
  }

  /** Non-blank input is appended trimmed and the box is cleared; blank input
      changes nothing. Duplicates are not checked. */
  lemma AddFeatureSpec(features: seq<string>, input: string)
    ensures !IsBlank(input) ==>
      && AddFeature(features, input) == (features + [Trim(input)], "")
      && !IsBlank(Trim(input))
    ensures IsBlank(input) ==> AddFeature(features, input) == (features, input)
  {
    TrimEmptyIffBlank(input);
    TrimIdempotent(input);
    TrimEmptyIffBlank(Trim(input));
  }

  /** What an input element delivers: text, or a number already read as an
      integer (prices in cents). */
  datatype InputValue = Text(text: string) | Amount(amount: int)

  /** `name.split('.')`, first two pieces. */
  function SplitDotted(name: string): (parts: (string, string))
    ensures var i := IndexOf(name, '.');
      i < |name| ==> parts.0 == name[..i] && '.' !in parts.0
  {
    var i := IndexOf(name, '.');
    var rest := if i < |name| then name[i + 1..] else "";
    (name[..i], rest[..IndexOf(rest, '.')])
  }

  /**
   * `handleInputChange`: a dotted name `parent.child` sets one field of the
   * nested record `parent`, any other name sets that top-level field. Only
   * the form's own fields with values of their own kind are represented.
   */
  function ApplyInput(f: PlanForm, name: string, value: InputValue): PlanForm {
    if '.' in name then
      var (parent, child) := SplitDotted(name);
      if parent == "price" && value.Amount? then
        if child == "monthly" then f.(price := f.price.(monthly := value.amount))
        else if child == "yearly" then f.(price := f.price.(yearly := value.amount))
        else f
      else f
    else if name == "name" && value.Text? then f.(name := value.text)
    else if name == "description" && value.Text? then f.(description := value.text)
    else if name == "tier" && value.Amount? then f.(tier := value.amount)
    else if name == "trialPeriodDays" && value.Amount? then f.(trialPeriodDays := value.amount)
    else f
  }

  /**
   * A dotted name changes nothing outside the nested price record, and
   * within it only the named price; an undotted name leaves the price, the
   * features and the billing cycles alone.
   */
  lemma ApplyInputFrame(f: PlanForm, name: string, value: InputValue)
    ensures var r := ApplyInput(f, name, value);
      && ('.' in name ==> r.(price := f.price) == f)
      && ('.' in name && SplitDotted(name).1 != "monthly" ==> r.price.monthly == f.price.monthly)
      && ('.' in name && SplitDotted(name).1 != "yearly" ==> r.price.yearly == f.price.yearly)
      && ('.' !in name ==> r.price == f.price && r.features == f.features && r.billingCycles == f.billingCycles)
  {
  }

  /** `split('.')` of a name with exactly one dot gives its two sides. */
  lemma SplitDottedAt(name: string, i: nat)
    requires i < |name| && name[i] == '.'
    requires forall j :: 0 <= j < |name| && j != i ==> name[j] != '.'
    ensures '.' in name
    ensures SplitDotted(name) == (name[..i], name[i + 1..])
  {
    var rest := name[i + 1..];
    assert IndexOf(name, '.') == i;
    assert forall j :: 0 <= j < |rest| ==> rest[j] == name[i + 1 + j];
    assert IndexOf(rest, '.') == |rest|;
    assert rest[..|rest|] == rest;
  }

  /** `parent.child` with no other dot splits back into its two names. */
  lemma SplitDottedJoin(parent: string, child: string)
    requires '.' !in parent && '.' !in child
    ensures '.' in parent + "." + child
    ensures SplitDotted(parent + "." + child) == (parent, child)
  {
    var name := parent + "." + child;
    assert forall j :: 0 <= j < |parent| ==> name[j] == parent[j];
    assert forall j :: |parent| < j < |name| ==> name[j] == child[j - |parent| - 1];
    SplitDottedAt(name, |parent|);
    assert name[..|parent|] == parent;
    assert name[|parent| + 1..] == child;
  }

  /**
   * A `price.<child>` input with a number sets the monthly price for
   * `price.monthly`, the yearly price for `price.yearly`, and nothing for
   * any other child.
   */
  lemma PriceInput(f: PlanForm, child: string, n: int)
    requires '.' !in child
    ensures ApplyInput(f, "price." + child, Amount(n)) ==
      if child == "monthly" then f.(price := Price(n, f.price.yearly))
      else if child == "yearly" then f.(price := Price(f.price.monthly, n))
      else f
  {
    var parent := "price";
    assert '.' !in parent;
    assert "price." + child == parent + "." + child;
    SplitDottedJoin(parent, child);
  }

  // ---------------------------------------------------------------------
  // Validation
  // ---------------------------------------------------------------------

  /** The six rules `validateForm` checks. */
  predicate PlanFormValid(f: PlanForm) {
    && !IsBlank(f.name)
    && !IsBlank(f.description)
    && f.price.monthly > 0
    && f.price.yearly > 0
    && f.tier > 0
    && |f.features| > 0
  }

  /** The form fields `validateForm` can flag. */
  datatype FormField = Name | Description | MonthlyPrice | YearlyPrice | Tier | Features

  /** The key each field's error has in the `errors` object. */
  function ErrorKey(field: FormField): string {
    match field
    case Name => "name"
    case Description => "description"
    case MonthlyPrice => "price.monthly"
    case YearlyPrice => "price.yearly"
    case Tier => "tier"
    case Features => "features"
  }

  /** Each rule's message. */
  function ErrorMessage(field: FormField): string {
    match field
    case Name => "Name is required"
    case Description => "Description is required"
    case MonthlyPrice => "Monthly price must be greater than 0"
    case YearlyPrice => "Yearly price must be greater than 0"
    case Tier => "Tier must be greater than 0"
    case Features => "At least one feature is required"
  }

  /** Every entry of an error map holds its own field's message. */
  predicate AllMessages(errors: map<FormField, string>) {
    forall field :: field in errors ==> errors[field] == ErrorMessage(field)
  }

  /** One rule of `validateForm`: a failed rule sets its field's message. */
  method Flag(errors: map<FormField, string>, failed: bool, field: FormField)
    returns (r: map<FormField, string>)
    ensures forall g :: g in r <==> g in errors || (failed && g == field)
    ensures AllMessages(errors) ==> AllMessages(r)
  {
    r := errors;
    if failed {
      r := r[field := ErrorMessage(field)];
    }
  }

  /**
   * The body of `validateForm` on the values it tests: each failed rule sets
   * its own entry to its own message, and no other entry appears.
   */
  method CollectErrors(nameBlank: bool, descriptionBlank: bool, monthly: int, yearly: int,
                       tier: int, featureCount: nat)
    returns (errors: map<FormField, string>)
    ensures Name in errors <==> nameBlank
    ensures Description in errors <==> descriptionBlank
    ensures MonthlyPrice in errors <==> monthly <= 0
    ensures YearlyPrice in errors <==> yearly <= 0
    ensures Tier in errors <==> tier <= 0
    ensures Features in errors <==> featureCount == 0
    ensures AllMessages(errors)
  {
    errors := map[];
    errors := Flag(errors, nameBlank, Name);
    errors := Flag(errors, descriptionBlank, Description);
    errors := Flag(errors, monthly <= 0, MonthlyPrice);
    errors := Flag(errors, yearly <= 0, YearlyPrice);
    errors := Flag(errors, tier <= 0, Tier);
    errors := Flag(errors, featureCount == 0, Features);
  }

  /**
   * `validateForm`'s `errors` object for a form, keyed by field; there is no
   * error exactly when all six rules hold. A text field fails when
   * `!value.trim()`, which is `IsBlank` (`TrimEmptyIffBlank`).
   */
  method FormErrors(f: PlanForm) returns (errors: map<FormField, string>)
    ensures Name in errors <==> IsBlank(f.name)
    ensures Description in errors <==> IsBlank(f.description)
    ensures MonthlyPrice in errors <==> f.price.monthly <= 0
    ensures YearlyPrice in errors <==> f.price.yearly <= 0
    ensures Tier in errors <==> f.tier <= 0
    ensures Features in errors <==> |f.features| == 0
    ensures AllMessages(errors)
    ensures errors == map[] <==> PlanFormValid(f)
  {
    errors := CollectErrors(IsBlank(f.name), IsBlank(f.description), f.price.monthly,
                            f.price.yearly, f.tier, |f.features|);
    if PlanFormValid(f) {
      assert forall field :: field !in errors;
    }
  }

  /** The request a save sends, before any I/O. */
  datatype PlanRequest =
    | Put(path: string, body: PlanForm)
    | Post(path: string, body: PlanForm)

  // ---------------------------------------------------------------------
  // Table: filter, page, discount
  // ---------------------------------------------------------------------

  /** A plan matches when its name or its description contains the search
      text, ignoring case. */
  predicate PlanMatches(search: string, p: Plan) {
    MatchesIgnoringCase(p.details.name, search) || MatchesIgnoringCase(p.details.description, search)
  }

  function Matching(search: string): Plan -> bool {
    p => PlanMatches(search, p)
  }

  /** `filteredPlans`. */
  function FilterPlans(plans: seq<Plan>, search: string): seq<Plan> {
    Filter(plans, Matching(search))
  }

  /**
   * The filter keeps exactly the matching plans, each as often as before, in
   * their original order, and an empty search keeps them all.
   */
  lemma FilterPlansSpec(plans: seq<Plan>, search: string)
    ensures forall p :: p in FilterPlans(plans, search) <==> p in plans && PlanMatches(search, p)
    ensures forall p :: multiset(FilterPlans(plans, search))[p] ==
                       (if PlanMatches(search, p) then multiset(plans)[p] else 0)
    ensures SubsequenceOf(FilterPlans(plans, search), plans)
    ensures search == "" ==> FilterPlans(plans, search) == plans
  {
    forall p | p in plans && PlanMatches(search, p) ensures p in FilterPlans(plans, search) {
      FilterKeeps(plans, Matching(search), p);
    }
    forall p ensures multiset(FilterPlans(plans, search))[p] ==
      if PlanMatches(search, p) then multiset(plans)[p] else 0 {
      FilterCount(plans, Matching(search), p);
    }
    FilterIsSubsequence(plans, Matching(search));
    if search == "" {
      forall k | 0 <= k < |plans| ensures PlanMatches(search, plans[k]) {
        ContainsEmpty(LowerStr(plans[k].details.name));
      }
      FilterAll(plans, Matching(search));
    }
  }

  /** `.slice(page * rowsPerPage, page * rowsPerPage + rowsPerPage)`. */
  function PageSlice<T>(s: seq<T>, page: nat, rowsPerPage: nat): (r: seq<T>)
    ensures |r| <= rowsPerPage
    ensures |r| == if page * rowsPerPage >= |s| then 0
                   else if |s| - page * rowsPerPage < rowsPerPage then |s| - page * rowsPerPage
                   else rowsPerPage
    ensures forall k :: 0 <= k < |r| ==> r[k] == s[page * rowsPerPage + k]
  {
    var start := if page * rowsPerPage <= |s| then page * rowsPerPage else |s|;
    var end := if start + rowsPerPage <= |s| then start + rowsPerPage else |s|;
    s[start..end]
  }

  /** With a positive page size every row is shown on exactly one page: row
      `i` is entry `i % rowsPerPage` of page `i / rowsPerPage`. */
  lemma PageSliceCovers<T>(s: seq<T>, rowsPerPage: nat, i: nat)
    requires rowsPerPage > 0 && i < |s|
    ensures var page := i / rowsPerPage;
      i % rowsPerPage < |PageSlice(s, page, rowsPerPage)|
      && PageSlice(s, page, rowsPerPage)[i % rowsPerPage] == s[i]
  {
    var page := i / rowsPerPage;
    assert page * rowsPerPage + i % rowsPerPage == i;
    assert page * rowsPerPage <= i;
  }

  /** `calculateYearlyDiscount` on cents: `Math.round` is `floor(x + 1/2)`. */
  function YearlyDiscount(monthly: int, yearly: int): int {
    var monthlyAnnual := monthly * 12;
    if monthlyAnnual <= 0 || yearly <= 0 then 0
    else (200 * (monthlyAnnual - yearly) + monthlyAnnual) / (2 * monthlyAnnual)
  }

  lemma DivBounds(n: int, d: int)
    requires d > 0
    ensures d * (n / d) <= n < d * (n / d) + d
  {
  }

  lemma MulMonotone(d: int, x: int, y: int)
    requires d > 0 && x <= y
    ensures d * x <= d * y
  {
    assert d * y - d * x == d * (y - x);
  }

  /**
   * The discount is 0 unless both twelve monthly payments and the yearly
   * price are positive. Then it is the percentage
   * `100 * (12 * monthly - yearly) / (12 * monthly)` rounded to the nearest
   * integer, halves upwards, and at most 100. A positive discount (the only
   * kind shown) means the yearly price is below twelve monthly payments.
   */
  lemma YearlyDiscountSpec(monthly: int, yearly: int)
    ensures var r := YearlyDiscount(monthly, yearly);
      var a := 12 * monthly;
      && (a <= 0 || yearly <= 0 ==> r == 0)
      && (a > 0 && yearly > 0 ==> (2 * r - 1) * a <= 200 * (a - yearly) < (2 * r + 1) * a)
      && r <= 100
      && (r > 0 ==> yearly < a)
  {
    var a := 12 * monthly;
    if a > 0 && yearly > 0 {
      var n := 200 * (a - yearly) + a;
      var d := 2 * a;
      var r := n / d;
      assert r == YearlyDiscount(monthly, yearly);
      DivBounds(n, d);
      var ra := r * a;
      assert d * r == 2 * ra;
      assert (2 * r - 1) * a == 2 * ra - a;
      assert (2 * r + 1) * a == 2 * ra + a;
      if r > 100 {
        MulMonotone(a, 101, r);
        assert false;
      }
      if r > 0 {
        MulMonotone(a, 1, r);
      }
    }
  }

  /** The screen's state fields that the modelled handlers touch. */
  class PlanEditor {
    var plans: seq<Plan>
    var search: string
    var page: nat
    var rowsPerPage: nat
    var selectedPlan: Option<Plan>
    var formData: PlanForm
    var formErrors: map<FormField, string>
    var featureInput: string

    constructor ()
      ensures plans == [] && search == "" && page == 0 && rowsPerPage == 10
      ensures selectedPlan == None && formData == EmptyForm
      ensures formErrors == map[] && featureInput == ""
    {
      plans, search, page, rowsPerPage := [], "", 0, 10;
      selectedPlan, formData, formErrors, featureInput := None, EmptyForm, map[], "";
    }

    /** The rows on screen. */
    function VisiblePlans(): seq<Plan>
      reads this
    {
      PageSlice(FilterPlans(plans, search), page, rowsPerPage)
    }

    /** `handleChangePage`. */
    method HandleChangePage(newPage: nat)
      modifies this`page
      ensures page == newPage
    {
      page := newPage;
    }

    /** `handleChangeRowsPerPage`: a new page size starts again at page 0. */
    method HandleChangeRowsPerPage(rows: nat)
      modifies this`rowsPerPage, this`page
      ensures rowsPerPage == rows && page == 0
      ensures VisiblePlans() == PageSlice(FilterPlans(plans, search), 0, rows)
    {
      rowsPerPage := rows;
      page := 0;
    }

    /** `openAddDialog`. */
    method OpenAddDialog()
      modifies this`selectedPlan, this`formData, this`formErrors
      ensures selectedPlan == None && formData == EmptyForm && formErrors == map[]
    {
      selectedPlan, formData, formErrors := None, EmptyForm, map[];
    }

    /** `openEditDialog`: the form is a copy of the plan. */
    method OpenEditDialog(plan: Plan)
      modifies this`selectedPlan, this`formData, this`formErrors
      ensures selectedPlan == Some(plan) && formData == plan.details && formErrors == map[]
    {
      selectedPlan, formData, formErrors := Some(plan), plan.details, map[];
    }

    /** `handleInputChange`. */
    method HandleInputChange(name: string, value: InputValue)
      modifies this`formData
      ensures formData == ApplyInput(old(formData), name, value)
    {
      formData := ApplyInput(formData, name, value);
    }

    /** `handleSwitchChange` for the three switches. */
    method HandleSwitchChange(name: string, checked: bool)
      modifies this`formData
      ensures formData == if name == "isActive" then old(formData).(isActive := checked)
                          else if name == "isPopular" then old(formData).(isPopular := checked)
                          else if name == "isFeatured" then old(formData).(isFeatured := checked)
                          else old(formData)
    {
      if name == "isActive" {
        formData := formData.(isActive := checked);
      } else if name == "isPopular" {
        formData := formData.(isPopular := checked);
      } else if name == "isFeatured" {
        formData := formData.(isFeatured := checked);
      }
    }

    /** `handleBillingCycleChange`; the list keeps its invariant. */
    method HandleBillingCycleChange(cycle: string)
      modifies this`formData
      ensures formData == old(formData).(billingCycles := ToggleCycle(old(formData).billingCycles, cycle))
      ensures NoDup(old(formData).billingCycles) ==> formData.billingCycles != [] && NoDup(formData.billingCycles)
    {
      if NoDup(formData.billingCycles) {
        ToggleCycleSpec(formData.billingCycles, cycle);
      }
      formData := formData.(billingCycles := ToggleCycle(formData.billingCycles, cycle));
    }

    /** `addFeature`. */
    method AddFeatureClick()
      modifies this`formData, this`featureInput
      ensures (formData.features, featureInput) == AddFeature(old(formData).features, old(featureInput))
      ensures formData == old(formData).(features := formData.features)
    {
      var t := Trim(featureInput);
      if t != "" {
        formData := formData.(features := formData.features + [t]);
        featureInput := "";
      }
    }

    /** `removeFeature`: `splice(index, 1)` on a copy of the list. */
    method RemoveFeature(index: int)
      modifies this`formData
      ensures formData == old(formData).(features := Spliced(old(formData).features, index))
    {
      var features := SpliceOne(formData.features, index);
      formData := formData.(features := features);
    }

    /** `validateForm`: the errors are stored, and the result says there are
        none. */
    method ValidateForm() returns (ok: bool)
      modifies this`formErrors
      ensures ok <==> PlanFormValid(formData)
      ensures ok <==> formErrors == map[]
      ensures Name in formErrors <==> IsBlank(formData.name)
      ensures Description in formErrors <==> IsBlank(formData.description)
      ensures MonthlyPrice in formErrors <==> formData.price.monthly <= 0
      ensures YearlyPrice in formErrors <==> formData.price.yearly <= 0
      ensures Tier in formErrors <==> formData.tier <= 0
      ensures Features in formErrors <==> |formData.features| == 0
      ensures AllMessages(formErrors)
    {
      formErrors := FormErrors(formData);
      ok := formErrors == map[];
    }

    /** `handleSavePlan` up to the request: the form is validated first, so
        the stored errors name exactly the failed rules; nothing is sent
        unless the form is valid; an edited plan is updated, otherwise one
        is created. */
    method HandleSavePlan() returns (request: Option<PlanRequest>)
      modifies this`formErrors
      ensures request.Some? <==> PlanFormValid(formData)
      ensures request.Some? && selectedPlan.Some? ==>
        request.value == Put("/api/admin/subscriptions/plans/" + selectedPlan.value.id, formData)
      ensures request.Some? && selectedPlan.None? ==>
        request.value == Post("/api/admin/subscriptions/plans", formData)
      ensures formErrors == map[] <==> PlanFormValid(formData)
      ensures Name in formErrors <==> IsBlank(formData.name)
      ensures Description in formErrors <==> IsBlank(formData.description)
      ensures MonthlyPrice in formErrors <==> formData.price.monthly <= 0
      ensures YearlyPrice in formErrors <==> formData.price.yearly <= 0
      ensures Tier in formErrors <==> formData.tier <= 0
      ensures Features in formErrors <==> |formData.features| == 0
      ensures AllMessages(formErrors)
    {
      var ok := ValidateForm();
      if !ok {
        return None;
      }
      if selectedPlan.Some? {
        request := Some(Put("/api/admin/subscriptions/plans/" + selectedPlan.value.id, formData));
      } else {
        request := Some(Post("/api/admin/subscriptions/plans", formData));
      }
    }
  }
}
