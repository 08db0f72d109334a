/**
 * The profile page: the edit form over the logged-in user's own details, its
 * validation, prefill and cancel, and the department label.
 */
module ProfilePage {
  import opened Wrappers
  import Domain
  import Text
  import ListOps
  import opened Forms

  /** The five fields of the profile form, all validated. */
  const Fields: set<Field> := {FullName, Email, Phone, Address, DateOfBirth}

  /** The initial form: every field empty. */
  function InitialValues(): (values: Values)
    ensures values.Keys == Fields
    ensures forall k :: k in values ==> values[k] == ""
  {
    map[FullName := "", Email := "", Phone := "", Address := "", DateOfBirth := ""]
  }

  /**
   * The form filled from a user: the four text fields copied, and the date of
   * birth cut at its first `T`, so an ISO date-time becomes the date a date input accepts.
   */
  function Prefill(user: Domain.User): (values: Values)
    ensures values.Keys == Fields
    ensures values[FullName] == user.fullName && values[Email] == user.email
    ensures values[Phone] == user.phone && values[Address] == user.address
    ensures values[DateOfBirth] == Text.BeforeFirst(user.dateOfBirth, 'T')
  {
    map[
      FullName := user.fullName,
      Email := user.email,
      Phone := user.phone,
      Address := user.address,
      DateOfBirth := Text.BeforeFirst(user.dateOfBirth, 'T')]
  }

  /** A stored date of birth `date` + `T` + time is prefilled as `date`. */
  lemma PrefillDateOnly(user: Domain.User, date: string, time: string)
    requires 'T' !in date && user.dateOfBirth == date + "T" + time
    ensures Prefill(user)[DateOfBirth] == date
  {
    Text.BeforeFirstSplit(date, time, 'T');
  }

  /** The outcome of each check of `validateForm`. */
  function Outcomes(values: Values): (outcomes: Forms.Outcomes)
    requires Fields <= values.Keys
    ensures outcomes.Keys == Fields
  {
    map[
      FullName := RequiredMessage(values[FullName], FullNameRequired),
      Email := EmailError(values[Email]),
      Phone := RequiredMessage(values[Phone], PhoneRequired),
      Address := RequiredMessage(values[Address], AddressRequired),
      DateOfBirth := NonEmptyMessage(values[DateOfBirth], DateOfBirthRequired)]
  }

  /** The messages `validateForm` produces: each field shows its check's outcome, and no other field has an entry. */
  ghost predicate ErrorsFor(values: Values, errors: Errors)
    requires Fields <= values.Keys
  {
    errors.Keys <= Fields && forall f :: f in Fields ==> Shows(errors, f, Outcomes(values)[f])
  }

  /** Every check passes. */
  ghost predicate Passes(values: Values)
    requires Fields <= values.Keys
  {
    forall f :: f in Fields ==> Outcomes(values)[f].None?
  }

  /** The values the form accepts: name, phone and address not blank, an e-mail the pattern matches, a date of birth typed. */
  ghost predicate Acceptable(values: Values)
    requires Fields <= values.Keys
  {
    !Text.IsBlank(values[FullName]) && Text.EmailPattern(values[Email])
    && !Text.IsBlank(values[Phone]) && !Text.IsBlank(values[Address]) && values[DateOfBirth] != ""
  }

  /** When every check passes, the e-mail matches the pattern. */
  lemma PassedEmail(values: Values)
    requires Fields <= values.Keys && Passes(values)
    ensures Text.EmailPattern(values[Email])
  {
    assert EmailError(values[Email]).None?;
  }

  /** When every check passes, no required field is blank or empty. */
  lemma PassedDetails(values: Values)
    requires Fields <= values.Keys && Passes(values)
    ensures !Text.IsBlank(values[FullName])
    ensures !Text.IsBlank(values[Phone]) && !Text.IsBlank(values[Address]) && values[DateOfBirth] != ""
  {
    assert RequiredMessage(values[FullName], FullNameRequired).None?;
    assert RequiredMessage(values[Phone], PhoneRequired).None?;
    assert RequiredMessage(values[Address], AddressRequired).None?;
    assert NonEmptyMessage(values[DateOfBirth], DateOfBirthRequired).None?;
  }

  /** Each check passes when its rule holds. */
  lemma RuleChecksPass(values: Values)
    requires Fields <= values.Keys && Acceptable(values)
    ensures RequiredMessage(values[FullName], FullNameRequired).None? && EmailError(values[Email]).None?
    ensures RequiredMessage(values[Phone], PhoneRequired).None? && RequiredMessage(values[Address], AddressRequired).None?
    ensures NonEmptyMessage(values[DateOfBirth], DateOfBirthRequired).None?
  {
  }

  /** Every check passes exactly when the form meets every rule. */
  lemma PassesIffAcceptable(values: Values)
    requires Fields <= values.Keys
    ensures Passes(values) <==> Acceptable(values)
  {
    if Passes(values) {
      PassedEmail(values);
      PassedDetails(values);
    }
    if Acceptable(values) {
      RuleChecksPass(values);
    }
  }

  /** `validateForm`'s message object: each field's check decides its entry, and the form is valid exactly when the object is empty. */
  function Validate(values: Values): (errors: Errors)
    requires Fields <= values.Keys
    ensures ErrorsFor(values, errors)
    ensures errors == map[] <==> Acceptable(values)
  {
    PassesIffAcceptable(values);
    Messages(Outcomes(values))
  }

  /** The field the profile page's department lookup compares on (`dept.id`, not `_id`). */
  function PublicId(department: Domain.Department): Option<string> {
    department.id
  }

  /**
   * `getDepartmentName`: "Not assigned" for a missing or empty id, the name of
   * the first cached department whose `id` equals it, and "Unknown Department"
   * when none does.
   */
  function DepartmentName(departmentId: Option<string>, departments: seq<Domain.Department>): (name: string)
    ensures departmentId.None? || departmentId.value == "" ==> name == "Not assigned"
    ensures departmentId.Some? && departmentId.value != "" && !ListOps.HasKey(departments, PublicId, departmentId) ==>
      name == "Unknown Department"
    ensures departmentId.Some? && departmentId.value != "" && ListOps.HasKey(departments, PublicId, departmentId) ==>
      exists i :: 0 <= i < |departments| && departments[i].id == departmentId && name == departments[i].name
        && forall j :: 0 <= j < i ==> departments[j].id != departmentId
  {
    if departmentId.None? || departmentId.value == "" then "Not assigned"
    else match ListOps.FindIndex(departments, PublicId, departmentId)
      case Some(i) => departments[i].name
      case None => "Unknown Department"
  }

  /**
   * The lookup compares `id`, which departments fetched with only an `_id`
   * lack: against such a cache every assigned department reads "Unknown Department".
   */
  lemma LookupNeedsPublicIds(departmentId: string, departments: seq<Domain.Department>)
    requires departmentId != ""
    requires forall i :: 0 <= i < |departments| ==> departments[i].id.None?
    ensures DepartmentName(Some(departmentId), departments) == "Unknown Department"
  {
  }

  /** The profile page's state: its form and whether it is in edit mode. */
  class ProfileEditor {
    const form: FormState
    var isEditing: bool

    /** Every field of the form is present. */
    predicate Valid()
      reads this, form
    {
      Fields <= form.values.Keys
    }

    /** The page opens with an empty form, no messages, and not in edit mode. */
    constructor ()
      ensures fresh(form) && form.values == InitialValues() && form.errors == map[] && !isEditing
      ensures Valid()
    {
      form := new FormState(InitialValues());
      isEditing := false;
    }

    /** The effect on `user`: when a user is present the form is filled from it; otherwise it is left alone. */
    method UserChanged(user: Option<Domain.User>)
      modifies form`values
      ensures form.values == if user.Some? then Prefill(user.value) else old(form.values)
      ensures form.errors == old(form.errors) && isEditing == old(isEditing)
      ensures old(Valid()) ==> Valid()
    {
      if user.Some? {
        form.values := Prefill(user.value);
      }
    }

    /** `handleEdit`: edit mode starts. */
    method Edit()
      modifies this`isEditing
      ensures isEditing
    {
      isEditing := true;
    }

    /** `handleCancel`: the form is refilled from the user when there is one, every message is cleared, and edit mode ends. */
    method Cancel(user: Option<Domain.User>)
      modifies form, this`isEditing
      ensures form.values == if user.Some? then Prefill(user.value) else old(form.values)
      ensures form.errors == map[] && !isEditing
      ensures old(Valid()) ==> Valid()
    {
      if user.Some? {
        form.values := Prefill(user.value);
      }
      form.errors := map[];
      isEditing := false;
    }

    /**
     * The guard of `handleSubmit`: the messages are replaced by the validation
     * result, and the form is handed on for the profile update only when valid.
     */
    method Submit() returns (payload: Option<Values>)
      requires Valid()
      modifies form`errors
      ensures ErrorsFor(form.values, form.errors)
      ensures payload.Some? <==> form.errors == map[]
      ensures payload.Some? ==> payload.value == form.values && Acceptable(form.values)
      ensures form.values == old(form.values)
    {
      var errors := Validate(form.values);
      form.SetErrors(errors);
      if |errors| == 0 {
        payload := Some(form.values);
      } else {
        payload := None;
      }
    }
  }
}
