/** The settings page's forms: which validation message each field shows,
    the user-info form's local schema, and its allergy editor, which is
    modelled by `AllergyEditor`. */
module UserSettingsForm {
  import opened Optional
  import Schema
  import JsText

  /** The message a field shows: the first issue reported at its path. */
  function ShownError(issues: seq<Schema.Issue>, field: string): (r: Option<string>)
    ensures r == None <==> !Schema.HasIssueAt(issues, field)
    ensures r.Some? ==> exists i :: 0 <= i < |issues| && issues[i] == Schema.Issue(field, r.value)
  {
    if issues == [] then None
    else if issues[0].path == field then Some(issues[0].message)
    else
      var rest := ShownError(issues[1..], field);
      assert forall i :: 0 < i < |issues| ==> issues[i] == issues[1..][i - 1];
      if rest.Some? then
        assert exists i :: 0 <= i < |issues[1..]| && issues[1..][i] == Schema.Issue(field, rest.value);
        rest
      else rest
  }

  /** Every field of the settings form is in bounds. */
  predicate FieldsValid(v: Schema.SettingsForm, emailFormatOk: bool) {
    emailFormatOk && JsText.Utf16Length(v.firstName) >= 1 && JsText.Utf16Length(v.lastName) >= 1 &&
    6 <= JsText.Utf16Length(v.username) <= 20 && JsText.Utf16Length(v.bio) <= 500
  }

  /** With the schema as written, two different new passwords block the
      submit, yet no field of the form shows a message. */
  lemma MismatchHiddenAsWritten(v: Schema.SettingsForm, emailFormatOk: bool)
    requires FieldsValid(v, emailFormatOk) && v.newPassword != v.confirmNewPassword
    ensures Schema.SettingsIssuesAsWritten(v, emailFormatOk) != []
    ensures forall f :: f in Schema.SettingsFields ==>
      ShownError(Schema.SettingsIssuesAsWritten(v, emailFormatOk), f) == None
  {
    assert Schema.SettingsIssuesAsWritten(v, emailFormatOk) ==
      [Schema.Issue("confirmPassword", "Passwords do not match")];
  }

  /** With the corrected schema the confirm-new-password field shows the
      mismatch, and matching passwords show nothing there. */
  lemma MismatchShownCorrected(v: Schema.SettingsForm, emailFormatOk: bool)
    requires FieldsValid(v, emailFormatOk)
    ensures v.newPassword != v.confirmNewPassword ==>
      ShownError(Schema.SettingsIssues(v, emailFormatOk), "confirmNewPassword") == Some("Passwords do not match")
    ensures v.newPassword == v.confirmNewPassword <==> Schema.SettingsIssues(v, emailFormatOk) == []
  {
    if v.newPassword != v.confirmNewPassword {
      assert Schema.SettingsIssues(v, emailFormatOk) ==
        [Schema.Issue("confirmNewPassword", "Passwords do not match")];
    }
  }

  /** The user-info form's own schema, declared beside the form. */
  function LocalUserInfoIssues(v: Schema.UserInfoForm, dateParses: bool): seq<Schema.Issue> {
    Schema.Need(dateParses, "birthDate", "Invalid Date") +
    Schema.Need(v.height >= 140.0, "height", "Height must be greater than 140 cm") +
    Schema.Need(v.weight >= 40.0, "weight", "Weight must be greater than 40 kg") +
    Schema.Need(v.monthlyBudget >= 1.0, "monthlyBudget", "Please add your monthly budget.")
  }

  /** The local schema needs height at least 140, weight at least 40 and a
      budget of at least 1, and reports exactly what the shared schema
      reports. */
  lemma LocalSchemaBounds(v: Schema.UserInfoForm, dateParses: bool)
    ensures LocalUserInfoIssues(v, dateParses) == [] <==>
      dateParses && v.height >= 140.0 && v.weight >= 40.0 && v.monthlyBudget >= 1.0
    ensures LocalUserInfoIssues(v, dateParses) == Schema.UserInfoIssues(v, dateParses)
  {
  }
}
