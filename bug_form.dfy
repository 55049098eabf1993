/** The bug form component: its field values, its validation messages and
    the transitions that change them. */
module FormComponent {
  import opened Js
  import opened Text
  import opened Validation

  /** The form's field values by input name. */
  type FormData = map<string, string>

  /** The inputs `validateForm` checks. */
  const RequiredFields: set<string> := {"title", "description", "reportedBy"}

  /** The empty form, also what a successful report resets to: the required
      fields are empty, and priority and status hold values the backend
      accepts. */
  function DefaultFormData(): (fd: FormData)
    ensures forall name :: name in RequiredFields ==> name in fd && fd[name] == ""
    ensures "priority" in fd && fd["priority"] in ValidPriorities
    ensures "status" in fd && fd["status"] in ValidStatuses
  {
    map["title" := "", "description" := "", "reportedBy" := "",
        "priority" := "medium", "status" := "open", "assignedTo" := ""]
  }

  /** `initialData?.[name] || fallback` */
  function InitialValue(initialData: Option<map<string, string>>, name: string, fallback: string): string
  {
    if initialData.Some? && name in initialData.value && initialData.value[name] != ""
    then initialData.value[name]
    else fallback
  }

  /** The form's first state: each field from `initialData` when truthy there,
      otherwise its default. */
  function InitialFormData(initialData: Option<map<string, string>>): (fd: FormData)
    ensures fd.Keys == DefaultFormData().Keys
  {
    map["title" := InitialValue(initialData, "title", ""),
        "description" := InitialValue(initialData, "description", ""),
        "reportedBy" := InitialValue(initialData, "reportedBy", ""),
        "priority" := InitialValue(initialData, "priority", "medium"),
        "status" := InitialValue(initialData, "status", "open"),
        "assignedTo" := InitialValue(initialData, "assignedTo", "")]
  }

  /** A field as JavaScript reads `formData[name]`: `undefined` when absent. */
  function Field(fd: FormData, name: string): Option<string>
  {
    if name in fd then Some(fd[name]) else None
  }

  /** Whether the rule of required field `name` fails on `fd`. */
  predicate RuleFails(fd: FormData, name: string)
    requires name in RequiredFields
  {
    if name == "title" then TooShort(Field(fd, "title"), 3)
    else if name == "description" then TooShort(Field(fd, "description"), 10)
    else Blank(Field(fd, "reportedBy"))
  }

  function RuleMessage(name: string): string
    requires name in RequiredFields
  {
    if name == "title" then TitleMessage
    else if name == "description" then DescriptionMessage
    else ReporterMessage
  }

  /** The errors `validateForm` records, as a table: every required field
      whose rule fails, with that rule's message. */
  function FormErrors(fd: FormData): (errors: map<string, string>)
    ensures errors.Keys <= RequiredFields
    ensures forall name :: name in errors ==> errors[name] in RuleMessages
  {
    map name | name in RequiredFields && RuleFails(fd, name) :: RuleMessage(name)
  }

  lemma FieldNamesDistinct()
    ensures "title" != "description" && "title" != "reportedBy" && "description" != "reportedBy"
  {
    assert "title"[0] == 't' && "description"[0] == 'd' && "reportedBy"[0] == 'r';
  }

  /** `FormErrors` field by field. */
  lemma FormErrorsTable(fd: FormData)
    ensures "title" in FormErrors(fd) <==> TooShort(Field(fd, "title"), 3)
    ensures "description" in FormErrors(fd) <==> TooShort(Field(fd, "description"), 10)
    ensures "reportedBy" in FormErrors(fd) <==> Blank(Field(fd, "reportedBy"))
    ensures forall name :: name in FormErrors(fd) ==> name in RequiredFields && FormErrors(fd)[name] == RuleMessage(name)
  {
    FieldNamesDistinct();
  }

  /** Records `message` under `name` when the rule failed. */
  function AddError(errors: map<string, string>, failed: bool, name: string, message: string): map<string, string>
  {
    if failed then errors[name := message] else errors
  }

  /** A table of required-field messages is fixed by which fields it holds. */
  lemma TableInSteps(e: map<string, string>, title: bool, description: bool, reporter: bool)
    requires forall name :: name in e ==> name in RequiredFields && e[name] == RuleMessage(name)
    requires "title" in e <==> title
    requires "description" in e <==> description
    requires "reportedBy" in e <==> reporter
    ensures e == AddError(AddError(AddError(map[], title, "title", TitleMessage),
                                   description, "description", DescriptionMessage),
                          reporter, "reportedBy", ReporterMessage)
  {
    FieldNamesDistinct();
    var stepped := AddError(AddError(AddError(map[], title, "title", TitleMessage),
                                     description, "description", DescriptionMessage),
                            reporter, "reportedBy", ReporterMessage);
    assert stepped.Keys == e.Keys;
  }

  /** `FormErrors` built one rule at a time, in the order `validateForm`
      checks them. */
  lemma FormErrorsInSteps(fd: FormData)
    ensures FormErrors(fd)
      == AddError(AddError(AddError(map[], TooShort(Field(fd, "title"), 3), "title", TitleMessage),
                           TooShort(Field(fd, "description"), 10), "description", DescriptionMessage),
                  Blank(Field(fd, "reportedBy")), "reportedBy", ReporterMessage)
  {
    FormErrorsTable(fd);
    TableInSteps(FormErrors(fd), TooShort(Field(fd, "title"), 3), TooShort(Field(fd, "description"), 10),
                 Blank(Field(fd, "reportedBy")));
  }

  /** `handleChange`'s error update: a set message of the edited field is
      blanked; an unset or blank one, and every other field's, stays. */
  function ClearError(errors: map<string, string>, name: string): (r: map<string, string>)
    ensures r.Keys == errors.Keys
    ensures name in errors ==> r[name] == ""
    ensures forall k :: k in errors && k != name ==> r[k] == errors[k]
  {
    if name in errors && errors[name] != "" then errors[name := ""] else errors
  }

  /** The request body a submitted form becomes. */
  function FormBody(fd: FormData): BugInput
  {
    BugInput(Field(fd, "title"), Field(fd, "description"), Field(fd, "reportedBy"),
             Field(fd, "status"), Field(fd, "priority"), Field(fd, "assignedTo"))
  }

  class BugForm {
    var formData: FormData
    var errors: map<string, string>
    /** `initialData`: present in edit mode. */
    const initialData: Option<map<string, string>>

    constructor (initialData: Option<map<string, string>>)
      ensures this.initialData == initialData
      ensures formData == InitialFormData(initialData) && errors == map[]
    {
      this.initialData := initialData;
      formData := InitialFormData(initialData);
      errors := map[];
    }

    /** `validateForm`: replaces `errors` by the failing rules' messages and
        reports whether there were none. */
    method ValidateForm() returns (ok: bool)
      modifies this`errors
      ensures errors == FormErrors(formData)
      ensures ok <==> errors == map[]
    {
      var newErrors: map<string, string> := map[];
      var title := Field(formData, "title");
      if !Truthy(title) || Utf16Length(Trim(title.value)) < 3 {
        newErrors := newErrors["title" := TitleMessage];
      }
      var description := Field(formData, "description");
      if !Truthy(description) || Utf16Length(Trim(description.value)) < 10 {
        newErrors := newErrors["description" := DescriptionMessage];
      }
      var reportedBy := Field(formData, "reportedBy");
      if !Truthy(reportedBy) || |Trim(reportedBy.value)| == 0 {
        newErrors := newErrors["reportedBy" := ReporterMessage];
      }
      FormErrorsInSteps(formData);
      errors := newErrors;
      ok := |newErrors.Keys| == 0;
      assert ok ==> newErrors == map[];
    }

    /** `handleChange`: sets one field and blanks that field's message. */
    method HandleChange(name: string, value: string)
      modifies this`formData, this`errors
      ensures formData == old(formData)[name := value]
      ensures errors == ClearError(old(errors), name)
    {
      formData := formData[name := value];
      if name in errors && errors[name] != "" {
        errors := errors[name := ""];
      }
    }

    /** `handleSubmit`: validates; on success hands the current values to
        `onSubmit` (the returned value) and, unless editing, resets the form. */
    method HandleSubmit() returns (submitted: Option<FormData>)
      modifies this`formData, this`errors
      ensures errors == FormErrors(old(formData))
      ensures submitted.Some? <==> FormErrors(old(formData)) == map[]
      ensures submitted.Some? ==> submitted.value == old(formData)
      ensures formData == if submitted.Some? && initialData.None? then DefaultFormData() else old(formData)
    {
      var ok := ValidateForm();
      if !ok {
        return None;
      }
      submitted := Some(formData);
      if initialData.None? {
        formData := DefaultFormData();
      }
    }
  }

  /** Without initial data the form starts empty, with the default priority
      and status. */
  lemma InitialFormWithoutData()
    ensures InitialFormData(None) == DefaultFormData()
  {
  }

  /** With initial data each field takes its truthy value there, or else the
      empty form's default. */
  lemma InitialFormWithData(d: map<string, string>, name: string)
    requires name in DefaultFormData()
    ensures name in InitialFormData(Some(d))
    ensures InitialFormData(Some(d))[name] ==
              if name in d && d[name] != "" then d[name] else DefaultFormData()[name]
  {
  }

  /** Submitting the empty form reports all three required fields. */
  lemma EmptyFormFailsEveryRule()
    ensures FormErrors(DefaultFormData()).Keys == RequiredFields
  {
    var fd := DefaultFormData();
    FormErrorsTable(fd);
    assert Field(fd, "title") == Some("") && Field(fd, "description") == Some("") && Field(fd, "reportedBy") == Some("");
  }

  /** The form's three rules are the backend validator's first three: each
      field error is present exactly when the backend reports the same
      message for the submitted body. */
  lemma FormAgreesWithBackend(fd: FormData)
    ensures var v := ValidateBugData(FormBody(fd));
            && ("title" in FormErrors(fd) <==> TitleMessage in v.errors)
            && ("description" in FormErrors(fd) <==> DescriptionMessage in v.errors)
            && ("reportedBy" in FormErrors(fd) <==> ReporterMessage in v.errors)
            && (forall name :: name in FormErrors(fd) ==> FormErrors(fd)[name] in v.errors)
  {
    FormErrorsTable(fd);
    var v := ValidateBugData(FormBody(fd));
    forall name | name in FormErrors(fd)
      ensures FormErrors(fd)[name] in v.errors
    {
    }
  }

  /** The backend accepts a submitted body exactly when the form shows no
      error and status and priority are in their enumerations. */
  lemma BackendAcceptsWhatFormAccepts(fd: FormData)
    ensures ValidateBugData(FormBody(fd)).isValid <==>
              FormErrors(fd) == map[]
              && !OutsideEnum(Field(fd, "status"), ValidStatuses)
              && !OutsideEnum(Field(fd, "priority"), ValidPriorities)
  {
    FormErrorsTable(fd);
    var v := ValidateBugData(FormBody(fd));
    if v.isValid {
      assert FormErrors(fd).Keys == {};
    } else {
      var m := v.errors[0];
      assert m in v.errors;
      assert InRuleOrder(v.errors);
    }
  }
}
