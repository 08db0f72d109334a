/**
 * The administrator's create-user page: the initial form, its validation
 * (with the password and confirmation rules), the registration payload and
 * the submit guard.
 */
module CreateUserPage {
  import opened Wrappers
  import Domain
  import Text
  import opened Forms

  /** The validated fields. */
  const Validated: set<Field> := {EmpNo, FullName, Email, Password, ConfirmPassword, Phone, Address, DateOfBirth}

  /** Every field of the form: the validated ones, the role and the two optional references. */
  const AllFields: set<Field> := Validated + {Role, DepartmentId, ManagerId}

  const PasswordRequired: string := "Password is required"
  const PasswordTooShort: string := "Password must be at least 6 characters long"
  const ConfirmRequired: string := "Please confirm your password"
  const PasswordsDiffer: string := "Passwords do not match"

  /** The initial form: the role is `staff` and every other field is empty. */
  function InitialValues(): (values: Values)
    ensures values.Keys == AllFields
    ensures values[Role] == Domain.Staff
    ensures forall f :: f in values && f != Role ==> values[f] == ""
  {
    map[
      EmpNo := "", FullName := "", Email := "", Password := "", ConfirmPassword := "",
      Role := Domain.Staff, Phone := "", Address := "", DateOfBirth := "",
      DepartmentId := "", ManagerId := ""]
  }

  /** The password check, untrimmed: required, then at least six UTF-16 code units (JavaScript's `length`). */
  function PasswordMessage(password: string): (m: Option<string>)
    ensures m.Some? <==> Text.Utf16Length(password) < 6
    ensures m.Some? ==> m.value == if password == "" then PasswordRequired else PasswordTooShort
  {
    if password == "" then Some(PasswordRequired)
    else if Text.Utf16Length(password) < 6 then Some(PasswordTooShort)
    else None
  }

  /** Three characters outside the Basic Multilingual Plane make six code units: long enough. */
  lemma AstralPasswordLongEnough()
    ensures PasswordMessage("\U{1F600}\U{1F600}\U{1F600}") == None
  {
    assert "\U{1F600}\U{1F600}\U{1F600}" == "\U{1F600}" + "\U{1F600}\U{1F600}";
    assert "\U{1F600}\U{1F600}" == "\U{1F600}" + "\U{1F600}";
    Text.Utf16LengthAppend("\U{1F600}", "\U{1F600}");
    Text.Utf16LengthAppend("\U{1F600}", "\U{1F600}\U{1F600}");
  }

  /** For text inside the Basic Multilingual Plane the rule is the familiar six-character minimum. */
  lemma BmpPasswordRule(password: string)
    requires forall i :: 0 <= i < |password| ==> (password[i] as int) < 0x1_0000
    ensures PasswordMessage(password).None? <==> |password| >= 6
  {
    Text.Utf16LengthBmp(password);
  }

  /** The confirmation check: required, then equal to the password. */
  function ConfirmMessage(password: string, confirm: string): (m: Option<string>)
    ensures m.Some? <==> confirm == "" || password != confirm
    ensures m.Some? ==> m.value == if confirm == "" then ConfirmRequired else PasswordsDiffer
  {
    if confirm == "" then Some(ConfirmRequired)
    else if password != confirm then Some(PasswordsDiffer)
    else None
  }

  /** The outcome of each check of `validateForm`. */
  function Outcomes(values: Values): (outcomes: Forms.Outcomes)
    requires Validated <= values.Keys
    ensures outcomes.Keys == Validated
  {
    map[
      EmpNo := RequiredMessage(values[EmpNo], EmpNoRequired),
      FullName := RequiredMessage(values[FullName], FullNameRequired),
      Email := EmailError(values[Email]),
      Password := PasswordMessage(values[Password]),
      ConfirmPassword := ConfirmMessage(values[Password], values[ConfirmPassword]),
      Phone := RequiredMessage(values[Phone], PhoneRequired),
      Address := RequiredMessage(values[Address], AddressRequired),
      DateOfBirth := NonEmptyMessage(values[DateOfBirth], DateOfBirthRequired)]
  }

  /** The messages `validateForm` produces: each validated field shows its check's outcome, and no other field has an entry. */
  ghost predicate ErrorsFor(values: Values, errors: Errors)
    requires Validated <= values.Keys
  {
    errors.Keys <= Validated && forall f :: f in Validated ==> Shows(errors, f, Outcomes(values)[f])
  }

  /** Every check passes. */
  ghost predicate Passes(values: Values)
    requires Validated <= values.Keys
  {
    forall f :: f in Validated ==> Outcomes(values)[f].None?
  }

  /**
   * The values the form accepts: employee number, name, phone and address not
   * blank, an e-mail the pattern matches, a password of at least six UTF-16
   * code units confirmed exactly, and a date of birth typed.
   */
  ghost predicate Acceptable(values: Values)
    requires Validated <= values.Keys
  {
    !Text.IsBlank(values[EmpNo]) && !Text.IsBlank(values[FullName]) && Text.EmailPattern(values[Email])
    && Text.Utf16Length(values[Password]) >= 6 && values[ConfirmPassword] == values[Password]
    && !Text.IsBlank(values[Phone]) && !Text.IsBlank(values[Address]) && values[DateOfBirth] != ""
  }

  /** When every check passes, the e-mail matches the pattern and the password is long enough and confirmed. */
  lemma PassedCredentials(values: Values)
    requires Validated <= values.Keys && Passes(values)
    ensures Text.EmailPattern(values[Email])
    ensures Text.Utf16Length(values[Password]) >= 6 && values[ConfirmPassword] == values[Password]
  {
    assert EmailError(values[Email]).None?;
    assert PasswordMessage(values[Password]).None?;
    assert ConfirmMessage(values[Password], values[ConfirmPassword]).None?;
  }

  /** When every check passes, no required field is blank or empty. */
  lemma PassedDetails(values: Values)
    requires Validated <= values.Keys && Passes(values)
    ensures !Text.IsBlank(values[EmpNo]) && !Text.IsBlank(values[FullName])
    ensures !Text.IsBlank(values[Phone]) && !Text.IsBlank(values[Address]) && values[DateOfBirth] != ""
  {
    assert RequiredMessage(values[EmpNo], EmpNoRequired).None?;
    assert RequiredMessage(values[FullName], FullNameRequired).None?;
    assert RequiredMessage(values[Phone], PhoneRequired).None?;
    assert RequiredMessage(values[Address], AddressRequired).None?;
    assert NonEmptyMessage(values[DateOfBirth], DateOfBirthRequired).None?;
  }

  /** The e-mail, password and confirmation checks pass when their rules hold. */
  lemma CredentialChecksPass(values: Values)
    requires Validated <= values.Keys
    requires Text.EmailPattern(values[Email])
    requires Text.Utf16Length(values[Password]) >= 6 && values[ConfirmPassword] == values[Password]
    ensures EmailError(values[Email]).None? && PasswordMessage(values[Password]).None?
    ensures ConfirmMessage(values[Password], values[ConfirmPassword]).None?
  {
  }

  /** The other checks pass when their fields are filled. */
  lemma DetailChecksPass(values: Values)
    requires Validated <= values.Keys
    requires !Text.IsBlank(values[EmpNo]) && !Text.IsBlank(values[FullName])
    requires !Text.IsBlank(values[Phone]) && !Text.IsBlank(values[Address]) && values[DateOfBirth] != ""
    ensures RequiredMessage(values[EmpNo], EmpNoRequired).None? && RequiredMessage(values[FullName], FullNameRequired).None?
    ensures RequiredMessage(values[Phone], PhoneRequired).None? && RequiredMessage(values[Address], AddressRequired).None?
    ensures NonEmptyMessage(values[DateOfBirth], DateOfBirthRequired).None?
  {
  }

  /** Every check passes exactly when the form meets every rule. */
  lemma PassesIffAcceptable(values: Values)
    requires Validated <= values.Keys
    ensures Passes(values) <==> Acceptable(values)
  {
    if Passes(values) {
      PassedCredentials(values);
      PassedDetails(values);
    }
    if Acceptable(values) {
      CredentialChecksPass(values);
      DetailChecksPass(values);
    }
  }

  /** `validateForm`'s message object: each field's check decides its entry, and the form is valid exactly when the object is empty. */
  function Validate(values: Values): (errors: Errors)
    requires Validated <= values.Keys
    ensures ErrorsFor(values, errors)
    ensures errors == map[] <==> Acceptable(values)
  {
    PassesIffAcceptable(values);
    Messages(Outcomes(values))
  }

  /** The registration payload: the form without the confirmation, optional references absent when empty. */
  datatype RegisterData = RegisterData(
    empNo: string,
    fullName: string,
    email: string,
    password: string,
    role: string,
    phone: string,
    address: string,
    dateOfBirth: string,
    departmentId: Option<string>,
    managerId: Option<string>)

  /** `value || undefined`: an empty string becomes absent. */
  function OrUndefined(value: string): (r: Option<string>)
    ensures r.None? <==> value == ""
    ensures r.Some? ==> r.value == value
  {
    if value == "" then None else Some(value)
  }

  /** The payload built from the form. */
  function Payload(values: Values): RegisterData
    requires AllFields <= values.Keys
  {
    RegisterData(
      values[EmpNo], values[FullName], values[Email], values[Password], values[Role],
      values[Phone], values[Address], values[DateOfBirth],
      OrUndefined(values[DepartmentId]), OrUndefined(values[ManagerId]))
  }

  /** The form a payload was built from, with the confirmation equal to the password. */
  function FormOf(data: RegisterData): (values: Values)
    ensures values.Keys == AllFields
  {
    map[
      EmpNo := data.empNo, FullName := data.fullName, Email := data.email,
      Password := data.password, ConfirmPassword := data.password, Role := data.role,
      Phone := data.phone, Address := data.address, DateOfBirth := data.dateOfBirth,
      DepartmentId := data.departmentId.GetOr(""), ManagerId := data.managerId.GetOr("")]
  }

  /**
   * Dropping the confirmation and turning empty references into absent ones
   * loses nothing: on a form whose confirmation matches, the payload gives the form back.
   */
  lemma PayloadLosesNothing(values: Values)
    requires AllFields <= values.Keys
    requires values[ConfirmPassword] == values[Password]
    ensures forall f :: f in AllFields ==> FormOf(Payload(values))[f] == values[f]
  {
    var back := FormOf(Payload(values));
    assert back[DepartmentId] == values[DepartmentId];
    assert back[ManagerId] == values[ManagerId];
  }

  /**
   * `handleSubmit`'s guard: the messages are replaced by the validation result,
   * and a payload is dispatched only when the form is valid.
   */
  method Submit(form: FormState) returns (payload: Option<RegisterData>)
    requires AllFields <= form.values.Keys
    modifies form`errors
    ensures ErrorsFor(form.values, form.errors)
    ensures payload.Some? <==> form.errors == map[]
    ensures payload.Some? ==> payload.value == Payload(form.values) && Acceptable(form.values)
    ensures form.values == old(form.values)
  {
    var errors := Validate(form.values);
    form.SetErrors(errors);
    if |errors| == 0 {
      payload := Some(Payload(form.values));
    } else {
      payload := None;
    }
  }
}
