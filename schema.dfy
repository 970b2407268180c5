/** The form schemas. Each schema is a function from the submitted values to
    the list of validation issues it reports (a path and a message); the
    values are accepted when the list is empty. String fields report every
    failing length or pattern check, and an object-level refinement runs
    even when a field already failed, so its issue is added to theirs.
    Email and date formats are outside the model and enter as booleans. */
module Schema {
  import JsText
  import Auth
  import opened Optional

  datatype Issue = Issue(path: string, message: string)

  function Need(ok: bool, path: string, message: string): seq<Issue> {
    if ok then [] else [Issue(path, message)]
  }

  predicate HasIssueAt(issues: seq<Issue>, path: string) {
    exists i :: 0 <= i < |issues| && issues[i].path == path
  }

  predicate IsUpper(c: char) { 'A' <= c <= 'Z' }
  predicate IsAlnum(c: char) { 'a' <= c <= 'z' || 'A' <= c <= 'Z' || '0' <= c <= '9' }

  predicate HasUpper(p: string) { exists i :: 0 <= i < |p| && IsUpper(p[i]) }
  predicate HasNonAlnum(p: string) { exists i :: 0 <= i < |p| && !IsAlnum(p[i]) }

  // ---------------------------------------------------------- registerUserSchema

  datatype RegisterForm = RegisterForm(
    email: string, firstName: string, lastName: string,
    username: string, password: string, confirmPassword: string)

  function UsernameIssues(username: string): seq<Issue> {
    Need(JsText.Utf16Length(username) >= 6, "username", "Username must be at least 6 characters") +
    Need(JsText.Utf16Length(username) <= 20, "username", "Username must be at most 20 characters")
  }

  function PasswordIssues(password: string): seq<Issue> {
    Need(JsText.Utf16Length(password) >= 6, "password", "Password must be at least 6 characters") +
    Need(HasUpper(password), "password", "Password must contain at least one uppercase letter") +
    Need(HasNonAlnum(password), "password", "Password must contain at least one special character")
  }

  function RegisterIssues(v: RegisterForm, emailFormatOk: bool): seq<Issue> {
    Need(emailFormatOk, "email", "Email is required") +
    Need(JsText.Utf16Length(v.firstName) >= 1, "firstName", "First Name is required") +
    Need(JsText.Utf16Length(v.lastName) >= 1, "lastName", "Last Name is required") +
    UsernameIssues(v.username) +
    PasswordIssues(v.password) +
    Need(JsText.Utf16Length(v.confirmPassword) >= 1, "confirmPassword", "Enter the same password") +
    Need(v.password == v.confirmPassword, "confirmPassword", "Passwords do not match")
  }

  /** A username is accepted exactly when it has 6 to 20 characters. */
  lemma UsernameBounds(username: string)
    ensures UsernameIssues(username) == [] <==> 6 <= JsText.Utf16Length(username) <= 20
  {
  }

  /** Lengths are JavaScript's: three emoji make a six-unit username. */
  lemma AstralUsernameAccepted()
    ensures var u := "\U{1F600}\U{1F600}\U{1F600}"; |u| == 3 && UsernameIssues(u) == []
  {
    var u := "\U{1F600}\U{1F600}\U{1F600}";
    JsText.Utf16LengthAstral(u);
  }

  /** What registration accepts, field by field. */
  lemma RegisterAccepts(v: RegisterForm, emailFormatOk: bool)
    ensures RegisterIssues(v, emailFormatOk) == [] <==>
      emailFormatOk && JsText.Utf16Length(v.firstName) >= 1 && JsText.Utf16Length(v.lastName) >= 1 &&
      6 <= JsText.Utf16Length(v.username) <= 20 &&
      JsText.Utf16Length(v.password) >= 6 && HasUpper(v.password) && HasNonAlnum(v.password) &&
      JsText.Utf16Length(v.confirmPassword) >= 1 && v.password == v.confirmPassword
  {
  }

  /** Every password the registration action accepts also passes the
      form's password checks. */
  lemma ServerStrongPassesForm(p: string)
    requires Auth.StrongPassword(p)
    ensures PasswordIssues(p) == []
  {
    var i :| 0 <= i < |p| && Auth.IsUpper(p[i]);
    assert IsUpper(p[i]);
    var j :| 0 <= j < |p| && Auth.IsSpecial(p[j]);
    assert !IsAlnum(p[j]);
  }

  /** The converse fails: the form accepts a password ending in `~`, which
      the registration action then refuses for lack of a special character. */
  lemma FormAcceptsTilde()
    ensures PasswordIssues("Abcdefg1~") == []
    ensures !Auth.StrongPassword("Abcdefg1~")
  {
    var p := "Abcdefg1~";
    Auth.TildePasswordClasses();
    assert IsUpper(p[0]);
    assert !IsAlnum(p[8]);
  }

  /** Mismatched passwords are reported on `confirmPassword`. */
  lemma RegisterMismatchOnConfirm(v: RegisterForm, emailFormatOk: bool)
    ensures v.password != v.confirmPassword ==>
      Issue("confirmPassword", "Passwords do not match") in RegisterIssues(v, emailFormatOk)
  {
  }

  // ------------------------------------------------------------ userInfoSchema

  datatype UserInfoForm = UserInfoForm(
    birthDate: string, height: real, weight: real, monthlyBudget: real, allergies: seq<string>)

  function UserInfoIssues(v: UserInfoForm, dateParses: bool): seq<Issue> {
    Need(dateParses, "birthDate", "Invalid Date") +
    Need(v.height >= 140.0, "height", "Height must be greater than 140 cm") +
    Need(v.weight >= 40.0, "weight", "Weight must be greater than 40 kg") +
    Need(v.monthlyBudget >= 1.0, "monthlyBudget", "Please add your monthly budget.")
  }

  /** User info needs a parsable date, height at least 140, weight at least
      40 and a budget of at least 1; the allergy names are unconstrained. */
  lemma UserInfoAccepts(v: UserInfoForm, dateParses: bool)
    ensures UserInfoIssues(v, dateParses) == [] <==>
      dateParses && v.height >= 140.0 && v.weight >= 40.0 && v.monthlyBudget >= 1.0
  {
  }

  // ------------------------------------------------------------- userBioSchema

  function BioIssues(bio: string): seq<Issue> {
    Need(JsText.Utf16Length(bio) <= 500, "bio", "Bio must be less than 500 characters")
  }

  /** A bio of exactly 500 characters is accepted, despite the message. */
  lemma BioBound(bio: string)
    ensures BioIssues(bio) == [] <==> JsText.Utf16Length(bio) <= 500
  {
  }

  /** A bio of more than 250 emoji is over the bound, however few
      characters it has. */
  lemma AstralBioRefused(bio: string)
    requires |bio| > 250 && forall i :: 0 <= i < |bio| ==> JsText.IsAstral(bio[i])
    ensures BioIssues(bio) != []
  {
    JsText.Utf16LengthAstral(bio);
  }

  // ---------------------------------------------------------- userRecipeSchema

  datatype IngredientForm = IngredientForm(name: string, srp: real)

  /** The twelve nutrient amounts of a recipe. */
  datatype NutrientAmounts = NutrientAmounts(
    calories: real, protein: real, carbs: real, fat: real, fiber: real, sugar: real,
    sodium: real, potassium: real, vitaminC: real, vitaminA: real, calcium: real, iron: real)
  {
    /** The amounts in the schema's field order. */
    function Amounts(): (r: seq<real>)
      ensures |r| == |NutrientFields|
    {
      [calories, protein, carbs, fat, fiber, sugar, sodium, potassium, vitaminC, vitaminA, calcium, iron]
    }
  }

  const NutrientFields: seq<string> := [
    "Calories", "Protein", "Carbs", "Fat", "Fiber", "Sugar",
    "Sodium", "Potassium", "VitaminC", "VitaminA", "Calcium", "Iron"]

  datatype RecipeForm = RecipeForm(
    title: string, ingredients: seq<IngredientForm>, procedure: string,
    images: seq<string>, nutrients: NutrientAmounts)

  function IngredientIssues(ings: seq<IngredientForm>, from: nat): seq<Issue>
    decreases |ings|
  {
    if ings == [] then []
    else
      var prefix := "ingredients." + JsText.IntToDecimal(from) + ".";
      Need(JsText.Utf16Length(ings[0].name) >= 2, prefix + "name", "Ingredients is/are required") +
      Need(ings[0].srp >= 0.0, prefix + "srp", "Number must be greater than or equal to 0") +
      Need(ings[0].srp > 0.0, prefix + "srp", "SRP for ingredient is required") +
      IngredientIssues(ings[1..], from + 1)
  }

  function AmountIssues(amounts: seq<real>, names: seq<string>): seq<Issue>
    requires |amounts| == |names|
  {
    if amounts == [] then []
    else Need(amounts[0] >= 0.0, names[0], "Number must be greater than or equal to 0") +
         AmountIssues(amounts[1..], names[1..])
  }

  function RecipeIssues(v: RecipeForm): seq<Issue> {
    Need(JsText.Utf16Length(v.title) >= 5, "title", "Title is required") +
    Need(JsText.Utf16Length(v.title) <= 50, "title", "Title must be less than 50 characters") +
    Need(|v.ingredients| >= 1, "ingredients", "Ingredients is/are required") +
    IngredientIssues(v.ingredients, 0) +
    Need(JsText.Utf16Length(v.procedure) >= 5, "procedure", "Procedure is required") +
    AmountIssues(v.nutrients.Amounts(), NutrientFields)
  }

  predicate ValidIngredient(g: IngredientForm) {
    JsText.Utf16Length(g.name) >= 2 && g.srp > 0.0
  }

  lemma {:induction false} IngredientIssuesEmpty(ings: seq<IngredientForm>, from: nat)
    ensures IngredientIssues(ings, from) == [] <==> forall i :: 0 <= i < |ings| ==> ValidIngredient(ings[i])
    decreases |ings|
  {
    if ings != [] {
      IngredientIssuesEmpty(ings[1..], from + 1);
      assert forall i :: 0 < i < |ings| ==> ings[i] == ings[1..][i - 1];
    }
  }

  lemma {:induction false} AmountIssuesEmpty(amounts: seq<real>, names: seq<string>)
    requires |amounts| == |names|
    ensures AmountIssues(amounts, names) == [] <==> forall i :: 0 <= i < |amounts| ==> amounts[i] >= 0.0
  {
    if amounts != [] {
      AmountIssuesEmpty(amounts[1..], names[1..]);
      assert forall i :: 0 < i < |amounts| ==> amounts[i] == amounts[1..][i - 1];
    }
  }

  /** A recipe is accepted exactly when its title has 5 to 50 characters,
      it has at least one ingredient and every ingredient has a name of at
      least 2 characters and a positive price, its procedure has at least 5
      characters and all twelve nutrient amounts are non-negative. */
  lemma RecipeAccepts(v: RecipeForm)
    ensures RecipeIssues(v) == [] <==>
      5 <= JsText.Utf16Length(v.title) <= 50 &&
      |v.ingredients| >= 1 && (forall i :: 0 <= i < |v.ingredients| ==> ValidIngredient(v.ingredients[i])) &&
      JsText.Utf16Length(v.procedure) >= 5 &&
      (forall i :: 0 <= i < |NutrientFields| ==> v.nutrients.Amounts()[i] >= 0.0)
  {
    IngredientIssuesEmpty(v.ingredients, 0);
    AmountIssuesEmpty(v.nutrients.Amounts(), NutrientFields);
  }

  // -------------------------------------------------------- userSettingsSchema

  datatype SettingsForm = SettingsForm(
    image: string, email: string, firstName: string, lastName: string,
    username: string, bio: string,
    currentPassword: Option<string>, newPassword: Option<string>,
    confirmNewPassword: Option<string>)

  /** The field names of the settings form. */
  const SettingsFields: set<string> := {
    "image", "email", "firstName", "lastName", "username", "bio",
    "currentPassword", "newPassword", "confirmNewPassword" }

  function SettingsFieldIssues(v: SettingsForm, emailFormatOk: bool): seq<Issue> {
    Need(emailFormatOk, "email", "Email is required") +
    Need(JsText.Utf16Length(v.firstName) >= 1, "firstName", "First Name is required") +
    Need(JsText.Utf16Length(v.lastName) >= 1, "lastName", "Last Name is required") +
    UsernameIssues(v.username) +
    BioIssues(v.bio)
  }

  /** The settings schema as written: a mismatch of the new passwords is
      reported under `confirmPassword`, which is not a field of this form. */
  function SettingsIssuesAsWritten(v: SettingsForm, emailFormatOk: bool): seq<Issue> {
    SettingsFieldIssues(v, emailFormatOk) +
    Need(v.newPassword == v.confirmNewPassword, "confirmPassword", "Passwords do not match")
  }

  /** The settings schema with the mismatch reported where the form shows
      it, on `confirmNewPassword`. */
  function SettingsIssues(v: SettingsForm, emailFormatOk: bool): seq<Issue> {
    SettingsFieldIssues(v, emailFormatOk) +
    Need(v.newPassword == v.confirmNewPassword, "confirmNewPassword", "Passwords do not match")
  }

  /** Settings are accepted when the fields are in bounds and the two new
      passwords are equal, two absent ones counting as equal. */
  lemma SettingsAccepts(v: SettingsForm, emailFormatOk: bool)
    ensures SettingsIssues(v, emailFormatOk) == [] <==>
      emailFormatOk && JsText.Utf16Length(v.firstName) >= 1 && JsText.Utf16Length(v.lastName) >= 1 &&
      6 <= JsText.Utf16Length(v.username) <= 20 && JsText.Utf16Length(v.bio) <= 500 && v.newPassword == v.confirmNewPassword
    ensures SettingsIssues(v, emailFormatOk) == [] <==> SettingsIssuesAsWritten(v, emailFormatOk) == []
  {
  }

  /** As written, a mismatch blocks the form but is reported on a path that
      no field of the form has. */
  lemma SettingsMismatchOffForm(v: SettingsForm, emailFormatOk: bool)
    requires v.newPassword != v.confirmNewPassword
    ensures SettingsIssuesAsWritten(v, emailFormatOk) != []
    ensures exists i :: (0 <= i < |SettingsIssuesAsWritten(v, emailFormatOk)| &&
                         SettingsIssuesAsWritten(v, emailFormatOk)[i].path !in SettingsFields)
  {
    var issues := SettingsIssuesAsWritten(v, emailFormatOk);
    assert issues[|issues| - 1] == Issue("confirmPassword", "Passwords do not match");
  }

  /** Corrected, a mismatch is reported on the confirm-new-password field. */
  lemma SettingsMismatchOnConfirm(v: SettingsForm, emailFormatOk: bool)
    requires v.newPassword != v.confirmNewPassword
    ensures HasIssueAt(SettingsIssues(v, emailFormatOk), "confirmNewPassword")
    ensures "confirmNewPassword" in SettingsFields
  {
    var issues := SettingsIssues(v, emailFormatOk);
    assert issues[|issues| - 1].path == "confirmNewPassword";
  }
}
