/**
 * The create-training page: its validation (with the future-date rule), the
 * toggle that assigns users, the department filter over the user list, and
 * the submit guard.
 *
 * `new Date(lastDate)` and the start of today are not computed here: the
 * parsed instant (None for an unparseable date, whose comparisons are all
 * false) and the local midnight of today arrive as integer milliseconds.
 */
module CreateTrainingPage {
  import opened Wrappers
  import Domain
  import Text
  import ListOps
  import opened Forms

  /** The validated fields. */
  const Validated: set<Field> := {TrainingName, Department, Content, LastDate}

  const TrainingNameRequired: string := "Training name is required"
  const DepartmentRequired: string := "Department is required"
  const ContentRequired: string := "Content description is required"
  const LastDateRequired: string := "Valid until date is required"
  const LastDateNotFuture: string := "Valid until date must be in the future"

  /** The initial form: every text field empty (the user list starts empty as well). */
  function InitialValues(): (values: Values)
    ensures values.Keys == Validated
    ensures forall f :: f in values ==> values[f] == ""
  {
    map[TrainingName := "", Department := "", Content := "", LastDate := ""]
  }

  /**
   * The date check: required (untrimmed), then strictly after the start of
   * today. A date that does not parse compares false and so passes.
   */
  function LastDateMessage(lastDate: string, parsed: Option<int>, todayStart: int): (m: Option<string>)
    ensures m.Some? <==> lastDate == "" || (parsed.Some? && parsed.value <= todayStart)
    ensures m.Some? ==> m.value == if lastDate == "" then LastDateRequired else LastDateNotFuture
  {
    if lastDate == "" then Some(LastDateRequired)
    else if parsed.Some? && parsed.value <= todayStart then Some(LastDateNotFuture)
    else None
  }

  /** The outcome of each check of `validateForm`, given the parsed date and the start of today. */
  function Outcomes(values: Values, parsed: Option<int>, todayStart: int): (outcomes: Forms.Outcomes)
    requires Validated <= values.Keys
    ensures outcomes.Keys == Validated
  {
    map[
      TrainingName := RequiredMessage(values[TrainingName], TrainingNameRequired),
      Department := RequiredMessage(values[Department], DepartmentRequired),
      Content := RequiredMessage(values[Content], ContentRequired),
      LastDate := LastDateMessage(values[LastDate], parsed, todayStart)]
  }

  /** The messages `validateForm` produces: each validated field shows its check's outcome, and no other field has an entry. */
  ghost predicate ErrorsFor(values: Values, parsed: Option<int>, todayStart: int, errors: Errors)
    requires Validated <= values.Keys
  {
    errors.Keys <= Validated && forall f :: f in Validated ==> Shows(errors, f, Outcomes(values, parsed, todayStart)[f])
  }

  /** Every check passes. */
  ghost predicate Passes(values: Values, parsed: Option<int>, todayStart: int)
    requires Validated <= values.Keys
  {
    forall f :: f in Validated ==> Outcomes(values, parsed, todayStart)[f].None?
  }

  /**
   * The values the form accepts: name, department and content not blank, and
   * a date typed that is not at or before the start of today.
   */
  ghost predicate Acceptable(values: Values, parsed: Option<int>, todayStart: int)
    requires Validated <= values.Keys
  {
    !Text.IsBlank(values[TrainingName]) && !Text.IsBlank(values[Department]) && !Text.IsBlank(values[Content])
    && values[LastDate] != "" && (parsed.None? || parsed.value > todayStart)
  }

  /** When every check passes, every rule holds. */
  lemma PassedRules(values: Values, parsed: Option<int>, todayStart: int)
    requires Validated <= values.Keys && Passes(values, parsed, todayStart)
    ensures Acceptable(values, parsed, todayStart)
  {
    assert RequiredMessage(values[TrainingName], TrainingNameRequired).None?;
    assert RequiredMessage(values[Department], DepartmentRequired).None?;
    assert RequiredMessage(values[Content], ContentRequired).None?;
    assert LastDateMessage(values[LastDate], parsed, todayStart).None?;
  }

  /** Each check passes when its rule holds. */
  lemma RuleChecksPass(values: Values, parsed: Option<int>, todayStart: int)
    requires Validated <= values.Keys && Acceptable(values, parsed, todayStart)
    ensures RequiredMessage(values[TrainingName], TrainingNameRequired).None?
    ensures RequiredMessage(values[Department], DepartmentRequired).None?
    ensures RequiredMessage(values[Content], ContentRequired).None?
    ensures LastDateMessage(values[LastDate], parsed, todayStart).None?
  {
  }

  /** Every check passes exactly when the form meets every rule. */
  lemma PassesIffAcceptable(values: Values, parsed: Option<int>, todayStart: int)
    requires Validated <= values.Keys
    ensures Passes(values, parsed, todayStart) <==> Acceptable(values, parsed, todayStart)
  {
    if Passes(values, parsed, todayStart) {
      PassedRules(values, parsed, todayStart);
    }
    if Acceptable(values, parsed, todayStart) {
      RuleChecksPass(values, parsed, todayStart);
    }
  }

  /** `validateForm`'s message object: each field's check decides its entry, and the form is valid exactly when the object is empty. */
  function Validate(values: Values, parsed: Option<int>, todayStart: int): (errors: Errors)
    requires Validated <= values.Keys
    ensures ErrorsFor(values, parsed, todayStart, errors)
    ensures errors == map[] <==> Acceptable(values, parsed, todayStart)
  {
    PassesIffAcceptable(values, parsed, todayStart);
    Messages(Outcomes(values, parsed, todayStart))
  }

  /** A typed date at or before the start of today is refused with the future-date message, however the other fields are filled. */
  lemma PastDateRefused(values: Values, parsed: int, todayStart: int)
    requires Validated <= values.Keys && values[LastDate] != "" && parsed <= todayStart
    ensures LastDate in Validate(values, Some(parsed), todayStart)
    ensures Validate(values, Some(parsed), todayStart)[LastDate] == LastDateNotFuture
  {
    assert Outcomes(values, Some(parsed), todayStart)[LastDate] == Some(LastDateNotFuture);
  }

  /** The start of today itself is not in the future: a date parsed to exactly that instant is refused (in UTC, today's date). */
  lemma TodayIsNotFuture(values: Values, todayStart: int)
    requires Validated <= values.Keys && values[LastDate] != ""
    ensures Validate(values, Some(todayStart), todayStart) != map[]
  {
    PastDateRefused(values, todayStart, todayStart);
  }

  /**
   * Today's date as the date input sends it: `new Date("YYYY-MM-DD")` is
   * midnight UTC of that date, while the start of today is local midnight,
   * `offset` milliseconds (the zone's offset from UTC) before midnight UTC of
   * the same calendar day. Today's date is refused exactly in the zones that
   * are not east of UTC; east of UTC it passes as a future date.
   */
  lemma TodayRefusedUnlessEastOfUtc(values: Values, utcMidnight: int, offset: int)
    requires Validated <= values.Keys && values[LastDate] != ""
    ensures LastDate in Validate(values, Some(utcMidnight), utcMidnight - offset) <==> offset <= 0
  {
    assert Outcomes(values, Some(utcMidnight), utcMidnight - offset)[LastDate]
      == LastDateMessage(values[LastDate], Some(utcMidnight), utcMidnight - offset);
  }

  /** A date that does not parse escapes the future-date rule: only the required check applies to it. */
  lemma UnparsedDateNotChecked(values: Values, todayStart: int)
    requires Validated <= values.Keys && values[LastDate] != ""
    ensures LastDate !in Validate(values, None, todayStart)
  {
    assert Outcomes(values, None, todayStart)[LastDate] == None;
  }

  /** The key of a user id in the assigned list: the id itself. */
  function Self(id: string): string { id }

  /**
   * `handleUserSelection`: an id already assigned is removed (every
   * occurrence of it), any other id is appended.
   */
  function Toggle(users: seq<string>, id: string): (r: seq<string>)
    ensures id in r <==> id !in users
    ensures forall x :: x != id ==> (x in r <==> x in users)
  {
    if id in users then ListOps.RemoveKey(users, Self, id) else users + [id]
  }

  /** Toggling an id that is not assigned, then toggling it again, gives back the list. */
  lemma ToggleTwiceAbsent(users: seq<string>, id: string)
    requires id !in users
    ensures Toggle(Toggle(users, id), id) == users
  {
    assert !ListOps.HasKey(users, Self, id);
    ListOps.RemoveKeyAppend(users, [id], Self, id);
    ListOps.RemoveKeyAbsent(users, Self, id);
    assert ListOps.RemoveKey([id], Self, id) == [];
  }

  /** Toggling an assigned id twice moves it to the end of the list. */
  lemma ToggleTwicePresent(users: seq<string>, id: string)
    requires id in users
    ensures Toggle(Toggle(users, id), id) == ListOps.RemoveKey(users, Self, id) + [id]
  {
  }

  /** The assigned list never holds an id twice, whatever is toggled. */
  lemma ToggleKeepsDistinct(users: seq<string>, id: string)
    requires ListOps.UniqueKeys(users, Self)
    ensures ListOps.UniqueKeys(Toggle(users, id), Self)
  {
    if id in users {
      ListOps.RemoveKeyKeepsUnique(users, Self, id);
    } else {
      assert !ListOps.HasKey(users, Self, id);
      ListOps.AppendKeepsUnique(users, Self, id);
    }
  }

  /** The user belongs to the department the form names. */
  predicate InDepartment(department: string, user: Domain.User) {
    user.departmentId == Some(department)
  }

  /**
   * `filteredUsers`: with a department chosen, the users whose department is
   * that one, in list order; with none chosen (the empty string), every user.
   */
  function FilteredUsers(department: string, users: seq<Domain.User>): (r: seq<Domain.User>)
    ensures department == "" ==> r == users
    ensures department != "" ==> forall i :: 0 <= i < |r| ==> r[i] in users && InDepartment(department, r[i])
    ensures department != "" ==> forall u :: u in users && InDepartment(department, u) ==> u in r
  {
    if department != "" then ListOps.Filter(users, u => InDepartment(department, u)) else users
  }

  /** The filter keeps the list's order: filtering a concatenation filters each part. */
  lemma FilteredUsersAppend(department: string, a: seq<Domain.User>, b: seq<Domain.User>)
    ensures FilteredUsers(department, a + b) == FilteredUsers(department, a) + FilteredUsers(department, b)
  {
    if department != "" {
      ListOps.FilterAppend(a, b, u => InDepartment(department, u));
    }
  }

  /** Filtering never invents or repeats a user: the result is a sub-multiset of the list. */
  lemma FilteredUsersSubMultiset(department: string, users: seq<Domain.User>)
    ensures multiset(FilteredUsers(department, users)) <= multiset(users)
  {
    if department != "" {
      ListOps.FilterSubMultiset(users, u => InDepartment(department, u));
    }
  }

  /** The training `createTraining` is dispatched with: the form's four texts and the assigned ids. */
  datatype TrainingDraft = TrainingDraft(
    trainingName: string,
    department: string,
    content: string,
    lastDate: string,
    users: seq<string>)

  /** The page's state: its text form and the list of assigned user ids. */
  class TrainingForm {
    const form: FormState
    var users: seq<string>

    /** Every validated field is present and no id is assigned twice. */
    predicate Valid()
      reads this, form
    {
      Validated <= form.values.Keys && ListOps.UniqueKeys(users, Self)
    }

    /** The page opens with empty fields, no messages and no assigned user. */
    constructor ()
      ensures fresh(form) && form.values == InitialValues() && form.errors == map[] && users == []
      ensures Valid()
    {
      form := new FormState(InitialValues());
      users := [];
    }

    /** `handleUserSelection`: the id is toggled in the assigned list; the texts and messages are untouched. */
    method UserSelection(id: string)
      requires Valid()
      modifies this`users
      ensures users == Toggle(old(users), id)
      ensures Valid()
    {
      ToggleKeepsDistinct(users, id);
      users := Toggle(users, id);
    }

    /**
     * `handleSubmit`'s guard: the messages are replaced by the validation
     * result, and the training is dispatched only when the form is valid.
     */
    method Submit(parsed: Option<int>, todayStart: int) returns (draft: Option<TrainingDraft>)
      requires Valid()
      modifies form`errors
      ensures ErrorsFor(form.values, parsed, todayStart, form.errors)
      ensures draft.Some? <==> form.errors == map[]
      ensures draft.Some? ==> Acceptable(form.values, parsed, todayStart)
      ensures draft.Some? ==> draft.value == TrainingDraft(
        form.values[TrainingName], form.values[Department], form.values[Content], form.values[LastDate], users)
      ensures form.values == old(form.values) && Valid()
    {
      var errors := Validate(form.values, parsed, todayStart);
      form.SetErrors(errors);
      if |errors| == 0 {
        draft := Some(TrainingDraft(
          form.values[TrainingName], form.values[Department], form.values[Content], form.values[LastDate], users));
      } else {
        draft := None;
      }
    }
  }
}
