/**
 * What the form pages share: the field names and messages, the three kinds
 * of check their `validateForm` functions make (required after trimming,
 * required as typed, and the e-mail check), and the form state that
 * `handleInputChange` updates. A form's values are kept by field name,
 * because the change handler writes the field its input names.
 */
module Forms {
  import opened Wrappers
  import Text

  /** The `name` attributes of the form inputs across the pages. */
  datatype Field =
    | FullName | Email | Phone | Address | DateOfBirth | EmpNo
    | Password | ConfirmPassword | Role | DepartmentId | ManagerId
    | TrainingName | Department | Content | LastDate
    | Name | Description

  /** The form's text fields by name. */
  type Values = map<Field, string>

  /** The messages shown under the fields, by field name; a field without an entry shows none. */
  type Errors = map<Field, string>

  const FullNameRequired: string := "Full name is required"
  const EmailRequired: string := "Email is required"
  const EmailInvalid: string := "Please enter a valid email address"
  const PhoneRequired: string := "Phone number is required"
  const AddressRequired: string := "Address is required"
  const DateOfBirthRequired: string := "Date of birth is required"
  const EmpNoRequired: string := "Employee number is required"

  /** `!value.trim()`: the value is empty once trimmed, which is to say all white space. */
  predicate Blank(value: string) {
    Text.IsBlank(value)
  }

  /** `Blank` is the trimming test: the value trims to the empty string exactly when it is blank. */
  lemma BlankIsTrimEmpty(value: string)
    ensures Blank(value) <==> Text.Trim(value) == ""
  {
    Text.TrimEmptyIffBlank(value);
  }

  /** `if (!value.trim()) errors[field] = message`: a message exactly when the value is blank. */
  function RequiredMessage(value: string, message: string): (m: Option<string>)
    ensures m.Some? <==> Text.IsBlank(value)
    ensures m.Some? ==> m.value == message
  {
    if Blank(value) then Some(message) else None
  }

  /** `if (!value) errors[field] = message`: the same check without trimming, so only the empty string fails. */
  function NonEmptyMessage(value: string, message: string): (m: Option<string>)
    ensures m.Some? <==> value == ""
    ensures m.Some? ==> m.value == message
  {
    if value == "" then Some(message) else None
  }

  /**
   * The e-mail check of the pages: "Email is required" for a blank value,
   * otherwise the invalid-address message when the pattern test fails, and no
   * message exactly when the value matches the pattern.
   */
  function EmailError(email: string): (m: Option<string>)
    ensures m.None? <==> Text.EmailPattern(email)
    ensures m.Some? ==> m.value == if Text.IsBlank(email) then EmailRequired else EmailInvalid
  {
    Text.PatternNotBlank(email);
    Text.IsValidEmailIffPattern(email);
    if Blank(email) then Some(EmailRequired)
    else if !Text.IsValidEmail(email) then Some(EmailInvalid)
    else None
  }

  /** The entry of `field` in `errors` is exactly the message `m`: present with that text when `m` is one, absent otherwise. */
  predicate Shows(errors: Errors, field: Field, m: Option<string>) {
    (field in errors <==> m.Some?) && (field in errors ==> Some(errors[field]) == m)
  }

  /** The outcome of each check of a `validateForm`: the message it gives its field, if any. */
  type Outcomes = map<Field, Option<string>>

  /**
   * The message object a `validateForm` builds from its checks' outcomes:
   * every checked field whose check gives a message has that message, and no other field has an entry.
   */
  function Messages(outcomes: Outcomes): (errors: Errors)
    ensures errors.Keys <= outcomes.Keys
    ensures forall f :: f in outcomes ==> Shows(errors, f, outcomes[f])
    ensures errors == map[] <==> forall f :: f in outcomes ==> outcomes[f].None?
  {
    var errors := map f | f in outcomes && outcomes[f].Some? :: outcomes[f].value;
    assert (forall f :: f in outcomes ==> outcomes[f].None?) ==> errors.Keys == {};
    errors
  }

  /** The state of a form: the values typed so far and the messages shown under the fields. */
  class FormState {
    var values: Values
    var errors: Errors

    /** A form with the given initial values and no messages. */
    constructor (initial: Values)
      ensures values == initial && errors == map[]
    {
      values := initial;
      errors := map[];
    }

    /**
     * `handleInputChange`: the named field takes the new value and loses its
     * message (set to `undefined`, which shows nothing); every other field
     * keeps its value and its message.
     */
    method InputChange(name: Field, value: string)
      modifies this`values, this`errors
      ensures values == old(values)[name := value]
      ensures errors == if name in old(errors) && old(errors)[name] != "" then old(errors) - {name} else old(errors)
      ensures name !in errors || errors[name] == ""
      ensures forall k :: k != name && k in old(values) ==> k in values && values[k] == old(values)[k]
      ensures forall k :: k != name && k in old(errors) ==> k in errors && errors[k] == old(errors)[k]
    {
      values := values[name := value];
      if name in errors && errors[name] != "" {
        errors := errors - {name};
      }
    }

    /** `setFormErrors`: the messages are replaced wholesale. */
    method SetErrors(newErrors: Errors)
      modifies this`errors
      ensures errors == newErrors && values == old(values)
    {
      errors := newErrors;
    }
  }
}
