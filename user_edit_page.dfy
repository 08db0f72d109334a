/**
 * The user edit page: prefill from the user in focus, validation, who may
 * edit, and which view is rendered.
 */
module UserEditPage {
  import opened Wrappers
  import Domain
  import Text
  import opened Forms
  import opened UserViews
  import UserDetailPage

  /** The validated fields. */
  const Validated: set<Field> := {FullName, Email, EmpNo, Phone, Address, DateOfBirth}

  /** Every field of the form. */
  const AllFields: set<Field> := Validated + {Role, DepartmentId, ManagerId}

  /**
   * The form filled from the user in focus: fields copied, the date of birth
   * cut at its first `T`, and a missing department or manager as the empty string.
   */
  function Prefill(user: Domain.User): (values: Values)
    ensures values.Keys == AllFields
    ensures values[FullName] == user.fullName && values[Email] == user.email && values[EmpNo] == user.empNo
    ensures values[Phone] == user.phone && values[Address] == user.address && values[Role] == user.role
    ensures values[DateOfBirth] == Text.BeforeFirst(user.dateOfBirth, 'T')
    ensures values[DepartmentId] == "" <==> user.departmentId.None? || user.departmentId.value == ""
    ensures values[ManagerId] == "" <==> user.managerId.None? || user.managerId.value == ""
    ensures user.departmentId.Some? ==> values[DepartmentId] == user.departmentId.value
    ensures user.managerId.Some? ==> values[ManagerId] == user.managerId.value
  {
    map[
      FullName := user.fullName, Email := user.email, EmpNo := user.empNo,
      Phone := user.phone, Address := user.address,
      DateOfBirth := Text.BeforeFirst(user.dateOfBirth, 'T'),
      Role := user.role,
      DepartmentId := user.departmentId.GetOr(""),
      ManagerId := user.managerId.GetOr("")]
  }

  /** The outcome of each check of `validateForm`: the profile checks plus the employee number, and no password check. */
  function Outcomes(values: Values): (outcomes: Forms.Outcomes)
    requires Validated <= values.Keys
    ensures outcomes.Keys == Validated
  {
    map[
      FullName := RequiredMessage(values[FullName], FullNameRequired),
      Email := EmailError(values[Email]),
      EmpNo := RequiredMessage(values[EmpNo], EmpNoRequired),
      Phone := RequiredMessage(values[Phone], PhoneRequired),
      Address := RequiredMessage(values[Address], AddressRequired),
      DateOfBirth := NonEmptyMessage(values[DateOfBirth], DateOfBirthRequired)]
  }

  /** The messages `validateForm` produces: each validated field shows its check's outcome, and no other field has an entry. */
  ghost predicate ErrorsFor(values: Values, errors: Errors)
    requires Validated <= values.Keys
  {
    errors.Keys <= Validated && forall f :: f in Validated ==> Shows(errors, f, Outcomes(values)[f])
  }

  /** Every check passes. */
  ghost predicate Passes(values: Values)
    requires Validated <= values.Keys
  {
    forall f :: f in Validated ==> Outcomes(values)[f].None?
  }

  /** The values the form accepts: name, employee number, phone and address not blank, an e-mail the pattern matches, a date of birth typed. */
  ghost predicate Acceptable(values: Values)
    requires Validated <= values.Keys
  {
    !Text.IsBlank(values[FullName]) && Text.EmailPattern(values[Email]) && !Text.IsBlank(values[EmpNo])
    && !Text.IsBlank(values[Phone]) && !Text.IsBlank(values[Address]) && values[DateOfBirth] != ""
  }

  /** When every check passes, the e-mail matches the pattern. */
  lemma PassedEmail(values: Values)
    requires Validated <= values.Keys && Passes(values)
    ensures Text.EmailPattern(values[Email])
  {
    assert EmailError(values[Email]).None?;
  }

  /** When every check passes, no required field is blank or empty. */
  lemma PassedDetails(values: Values)
    requires Validated <= values.Keys && Passes(values)
    ensures !Text.IsBlank(values[FullName]) && !Text.IsBlank(values[EmpNo])
    ensures !Text.IsBlank(values[Phone]) && !Text.IsBlank(values[Address]) && values[DateOfBirth] != ""
  {
    assert RequiredMessage(values[FullName], FullNameRequired).None?;
    assert RequiredMessage(values[EmpNo], EmpNoRequired).None?;
    assert RequiredMessage(values[Phone], PhoneRequired).None?;
    assert RequiredMessage(values[Address], AddressRequired).None?;
    assert NonEmptyMessage(values[DateOfBirth], DateOfBirthRequired).None?;
  }

  /** Each check passes when its rule holds. */
  lemma RuleChecksPass(values: Values)
    requires Validated <= values.Keys && Acceptable(values)
    ensures RequiredMessage(values[FullName], FullNameRequired).None? && EmailError(values[Email]).None?
    ensures RequiredMessage(values[EmpNo], EmpNoRequired).None?
    ensures RequiredMessage(values[Phone], PhoneRequired).None? && RequiredMessage(values[Address], AddressRequired).None?
    ensures NonEmptyMessage(values[DateOfBirth], DateOfBirthRequired).None?
  {
  }

  /** Every check passes exactly when the form meets every rule. */
  lemma PassesIffAcceptable(values: Values)
    requires Validated <= values.Keys
    ensures Passes(values) <==> Acceptable(values)
  {
    if Passes(values) {
      PassedEmail(values);
      PassedDetails(values);
    }
    if Acceptable(values) {
      RuleChecksPass(values);
    }
  }

  /** `validateForm`'s message object: each field's check decides its entry, and the form is valid exactly when the object is empty. */
  function Validate(values: Values): (errors: Errors)
    requires Validated <= values.Keys
    ensures ErrorsFor(values, errors)
    ensures errors == map[] <==> Acceptable(values)
  {
    PassesIffAcceptable(values);
    Messages(Outcomes(values))
  }

  /** `canEdit`: the logged-in user is an administrator or is editing their own account. */
  predicate CanEdit(logged: Option<Domain.User>, currentUser: Domain.User) {
    logged.Some? && (logged.value.role == Domain.Admin || logged.value.id == currentUser.id)
  }

  /** The spinner during the first load, not-found without a user, unauthorized without permission, the form otherwise. */
  function EditView(isLoading: bool, currentUser: Option<Domain.User>, logged: Option<Domain.User>): (view: View)
    ensures view == Page <==> currentUser.Some? && CanEdit(logged, currentUser.value)
    ensures view == Unauthorized <==> currentUser.Some? && !CanEdit(logged, currentUser.value)
  {
    if isLoading && currentUser.None? then Spinner
    else if currentUser.None? then NotFound
    else if !CanEdit(logged, currentUser.value) then Unauthorized
    else Page
  }

  /** The edit page chooses between the spinner and not-found exactly as the detail page does. */
  lemma ViewsAgree(isLoading: bool, currentUser: Option<Domain.User>, logged: Option<Domain.User>)
    ensures EditView(isLoading, currentUser, logged) == Spinner <==> UserDetailPage.DetailView(isLoading, currentUser) == Spinner
    ensures EditView(isLoading, currentUser, logged) == NotFound <==> UserDetailPage.DetailView(isLoading, currentUser) == NotFound
    ensures EditView(isLoading, currentUser, logged) == Page ==> UserDetailPage.DetailView(isLoading, currentUser) == Page
  {
  }

  /** After teardown no user is in focus, so the edit form cannot show until a new fetch completes. */
  lemma NoFormWithoutFocus(isLoading: bool, logged: Option<Domain.User>)
    ensures EditView(isLoading, None, logged) == (if isLoading then Spinner else NotFound)
  {
  }

  /** Whoever may change a user's status on the detail page may also edit that user; the converse fails only for one's own account or a non-admin. */
  lemma StatusActionsImplyEdit(logged: Option<Domain.User>, currentUser: Domain.User)
    ensures UserDetailPage.ShowStatusActions(logged, currentUser) ==> CanEdit(logged, currentUser)
    ensures CanEdit(logged, currentUser) && !UserDetailPage.ShowStatusActions(logged, currentUser) ==>
      logged.value.id == currentUser.id
  {
  }

  /**
   * `handleSubmit`'s guards: the messages are replaced by the validation
   * result; with a valid form, a user in focus and a route id the page goes
   * back to that user's detail page. The update request itself is only
   * simulated by the page, so nothing is sent.
   */
  method Submit(form: FormState, currentUser: Option<Domain.User>, routeId: Option<string>) returns (target: Option<string>)
    requires Validated <= form.values.Keys
    modifies form`errors
    ensures ErrorsFor(form.values, form.errors)
    ensures target.Some? <==> form.errors == map[] && currentUser.Some? && routeId.Some? && routeId.value != ""
    ensures target.Some? ==> Acceptable(form.values) && target.value == "/users/" + routeId.value
    ensures form.values == old(form.values)
  {
    var errors := Validate(form.values);
    form.SetErrors(errors);
    if |errors| != 0 || currentUser.None? || routeId.None? || routeId.value == "" {
      target := None;
    } else {
      target := Some("/users/" + routeId.value);
    }
  }
}
