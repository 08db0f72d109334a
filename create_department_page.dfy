/**
 * The create-department page: two required fields, their validation and the
 * submit guard. Typing into a field is `Forms.FormState.InputChange`.
 */
module CreateDepartmentPage {
  import opened Wrappers
  import Text
  import opened Forms

  /** The two fields of the form, both validated. */
  const Fields: set<Field> := {Name, Description}

  const NameRequired: string := "Department name is required"
  const DescriptionRequired: string := "Description is required"

  /** The initial form: both fields empty. */
  function InitialValues(): (values: Values)
    ensures values.Keys == Fields
    ensures forall f :: f in values ==> values[f] == ""
  {
    map[Name := "", Description := ""]
  }

  /** The outcome of each check of `validateForm`. */
  function Outcomes(values: Values): (outcomes: Forms.Outcomes)
    requires Fields <= values.Keys
    ensures outcomes.Keys == Fields
  {
    map[
      Name := RequiredMessage(values[Name], NameRequired),
      Description := RequiredMessage(values[Description], DescriptionRequired)]
  }

  /** The messages `validateForm` produces: each field shows its check's outcome, and no other field has an entry. */
  ghost predicate ErrorsFor(values: Values, errors: Errors)
    requires Fields <= values.Keys
  {
    errors.Keys <= Fields && forall f :: f in Fields ==> Shows(errors, f, Outcomes(values)[f])
  }

  /** `validateForm`'s message object: valid exactly when neither field is blank after trimming. */
  function Validate(values: Values): (errors: Errors)
    requires Fields <= values.Keys
    ensures ErrorsFor(values, errors)
    ensures errors == map[] <==> !Text.IsBlank(values[Name]) && !Text.IsBlank(values[Description])
  {
    var outcomes := Outcomes(values);
    assert outcomes[Name] == RequiredMessage(values[Name], NameRequired);
    assert outcomes[Description] == RequiredMessage(values[Description], DescriptionRequired);
    Messages(outcomes)
  }

  /** A blank name gets the name message and a blank description the description message, independently of each other. */
  lemma MessagesIndependent(values: Values)
    requires Fields <= values.Keys
    ensures Name in Validate(values) <==> Text.IsBlank(values[Name])
    ensures Description in Validate(values) <==> Text.IsBlank(values[Description])
    ensures Name in Validate(values) ==> Validate(values)[Name] == NameRequired
    ensures Description in Validate(values) ==> Validate(values)[Description] == DescriptionRequired
  {
    var errors := Validate(values);
    assert Shows(errors, Name, Outcomes(values)[Name]);
    assert Shows(errors, Description, Outcomes(values)[Description]);
  }

  /** The department `createDepartment` is dispatched with. */
  datatype DepartmentDraft = DepartmentDraft(name: string, description: string)

  /**
   * `handleSubmit`'s guard: the messages are replaced by the validation
   * result, and the department is dispatched only when the form is valid.
   */
  method Submit(form: FormState) returns (draft: Option<DepartmentDraft>)
    requires Fields <= form.values.Keys
    modifies form`errors
    ensures ErrorsFor(form.values, form.errors)
    ensures draft.Some? <==> form.errors == map[]
    ensures draft.Some? ==> draft.value == DepartmentDraft(form.values[Name], form.values[Description])
    ensures draft.Some? ==> !Text.IsBlank(draft.value.name) && !Text.IsBlank(draft.value.description)
    ensures form.values == old(form.values)
  {
    var errors := Validate(form.values);
    form.SetErrors(errors);
    if |errors| == 0 {
      draft := Some(DepartmentDraft(form.values[Name], form.values[Description]));
    } else {
      draft := None;
    }
  }
}
