# nutribud: a Dafny model of the recipe app's core

nutribud is a Next.js recipe-sharing app backed by Prisma. Users register and
log in, fill in an onboarding profile (birth date, height, weight, monthly
budget, allergies), browse a paged and filtered home feed of recipes, follow
other users from a search bar, and edit their settings. This project models
the logic parts of that app and proves what they promise:

- the in-memory fixed-window **rate limiter** and its periodic sweep (`RateLimit`);
- the **register** validation ladder and the **login** attempt counter with
  its 15-minute decrements (`Auth`);
- **sanitizeText** HTML escaping (`Sanitize`);
- the **zod schemas** for registration, user info, bio, recipes and settings (`Schema`);
- the home page **recipe filter**. Its submit handler and its automatic-filter
  button rewrite the query string, and its defaults are read back from that
  query (`RecipeFilter`, over the `URLSearchParams` model in `UrlSearchParams`);
- the **pagination bar** links and their disabled flags (`RecipePagination`);
- the image **carousel** shared by the recipe card and the recipe detail page (`Carousel`);
- the request-size gate of the **middleware** (`Middleware`);
- the **settings** and **onboarding** server actions over an explicit
  user/user-info store (`Store`, `SettingsActions`, `OnboardingActions`);
- the header's user list with **follow flags** (`Header`) and the search bar's
  follow/unfollow buttons (`Searchbar`);
- the **allergy editors** of the settings and onboarding forms (`AllergyEditor`),
  and the settings form's error display and local schema (`UserSettingsForm`);
- `LinkUrl`'s path formatting (`LinkUrl`).

`JsText` supplies the JavaScript built-ins the source relies on: `trim`,
`parseInt`, integer-to-text, `split`, `join` and `length`. Every string
length is JavaScript's, counted in UTF-16 code units, so a character
outside the Basic Multilingual Plane counts twice. `Optional` supplies the
option type. Argon2 hashing and verification are function-valued parameters.
The email-format test and the `Date.parse` test are boolean inputs. Timers
are explicit methods, called with the current time or as the event that fires.
The session is an input: `Option<string>`, the id of the signed-in user.

## Model

| member | source | states |
|---|---|---|
| RateLimit.Step | src/lib/rate-limit.ts:45-90 | one call of `rateLimit`: the answer and the new store for an identifier at a given time |
| RateLimit.Sweep | src/lib/rate-limit.ts:15-24 | the store after one run of the periodic cleanup at a given time |
| RateLimit.SecondsCeil | src/lib/rate-limit.ts:70 | the retry time in seconds is the smallest whole number of seconds covering the remaining milliseconds |
| RateLimit.RateLimiter.RateLimit | src/lib/rate-limit.ts:45-90 | a missing or expired entry opens a new window with count 1 and succeeds; a full window fails with remaining 0 and leaves the store alone; otherwise the count goes up by one and remaining is the cap minus the new count; no other identifier's entry changes |
| RateLimit.RateLimiter.Cleanup | src/lib/rate-limit.ts:15-24 | the sweep keeps exactly the entries whose reset time has not passed |
| RateLimit.ActiveWindowRun | src/lib/rate-limit.ts:69-89 | inside an open window that already holds `count` requests, a burst of calls admits exactly min(burst, max(0, cap - count)) of them |
| RateLimit.WindowRun | src/lib/rate-limit.ts:54-89 | calls that fall inside the window the first of them opens admit exactly min(burst, max(cap, 1)) |
| RateLimit.SweepUnobservable | src/lib/rate-limit.ts:15-24 | a sweep that ran no later than a call changes neither that call's answer nor the entry it leaves |
| Auth.Register | src/actions/auth.actions.ts:24-69 | the answer of `register`: each check in source order with its message, then the created user with the hashed password |
| Auth.FirstFailure | src/actions/auth.actions.ts:14-78 | no message exactly when every check passes; otherwise the message of the first check that fails |
| Auth.FirstFailureUnique | src/actions/auth.actions.ts:14-78 | there is only one first failing check |
| Auth.RegisterIsFirstFailure | src/actions/auth.actions.ts:24-69 | register answers with the first failure of the checks in source order: email taken, username taken, passwords differ, password shorter than 8 UTF-16 units, no lower-case letter, no upper-case letter, no digit, no special character. Only when none fails does it create the user, with the hashed password |
| Auth.RegisterCreatesIff | src/actions/auth.actions.ts:24-69 | a user is created if and only if email and username are free, the passwords match and the password is strong (at least 8 UTF-16 units with a lower-case letter, an upper-case letter, a digit and a special character); the stored password is the hash of the submitted one |
| Auth.TildeIsNotSpecial | src/actions/auth.actions.ts:43-57 | backquote and tilde are outside the special-character class, so "Abcdefg1~" is refused as weak |
| Auth.NoSpecialOutsideClass | src/actions/auth.actions.ts:55 | a password of letters, digits and tildes holds no special character |
| Auth.AstralPasswordCounts | src/actions/auth.actions.ts:43 | "😀😀Aa1!" has six characters but eight UTF-16 units, so it passes the length check and the user is created |
| Auth.LoginStep | src/actions/auth.actions.ts:80-131 | one call of `login`: the answer and the new attempt counters |
| Auth.FailuresAreCapped | src/actions/auth.actions.ts:84-110 | between decrements, failing logins for one email get past the attempt check at most as often as the counter has room below 5 |
| Auth.LoginAttempts.Login | src/actions/auth.actions.ts:80-131 | at 5 or more attempts the login is refused and nothing changes; otherwise the counter goes up and a decrement is scheduled, an unknown email and a wrong password each answer their own error, and a correct password resets the counter to 0 and signs in |
| Auth.LoginAttempts.ExpireAttempt | src/actions/auth.actions.ts:89-92 | a scheduled decrement lowers a positive counter by one and leaves a zero or missing counter alone; the counter stays between 0 and 5 and never exceeds the decrements still scheduled |
| Sanitize.SanitizeText | src/lib/sanitize.ts:35-45 | the six global replacements, `&` first |
| Sanitize.SanitizeIsEscape | src/lib/sanitize.ts:35-45 | the chain of six global replacements, with `&` first, equals escaping each character on its own |
| Sanitize.SanitizeTextSafe | src/lib/sanitize.ts:35-45 | the output holds no `<`, `>`, `"`, `'` or `/`, every `&` starts one of the six entities, it is never shorter than the input, and the empty input gives the empty output |
| Sanitize.UnescapeEscape | src/lib/sanitize.ts:35-45 | decoding the six entities gives back the original text, so escaping loses nothing |
| Sanitize.SanitizeTextInjective | src/lib/sanitize.ts:35-45 | two different inputs never sanitise to the same text |
| Sanitize.EscapePlain | src/lib/sanitize.ts:35-45 | text without any of the six characters comes back unchanged |
| Schema.RegisterIssues | src/schema/index.ts:3-38 | the issues the registration schema reports, field by field, then the refinement's mismatch |
| Schema.UsernameBounds | src/schema/index.ts:14-21 | a username is accepted exactly when it is 6 to 20 UTF-16 units long |
| Schema.AstralUsernameAccepted | src/schema/index.ts:14-21 | three emoji make an accepted username: three characters, six units |
| Schema.RegisterAccepts | src/schema/index.ts:3-38 | registration values are accepted exactly when the email is well formed, the names are non-empty, the username is 6 to 20 UTF-16 units long, the password has at least 6 units with an upper-case letter and a character that is neither letter nor digit, and the confirmation is non-empty and matches |
| Schema.ServerStrongPassesForm | src/schema/index.ts:22-30 | every password the register action accepts as strong also passes the form's password rules |
| Schema.FormAcceptsTilde | src/schema/index.ts:22-30 | the converse does not hold: the form accepts "Abcdefg1~", which the action refuses |
| Schema.RegisterMismatchOnConfirm | src/schema/index.ts:35-38 | different passwords are reported on the confirmPassword field |
| Schema.UserInfoIssues | src/schema/index.ts:49-68 | the issues the user-info schema reports |
| Schema.UserInfoAccepts | src/schema/index.ts:49-68 | user info is accepted exactly when the date parses, the height is at least 140, the weight at least 40 and the budget at least 1 |
| Schema.BioIssues | src/schema/index.ts:70-74 | the issue the bio schema reports |
| Schema.BioBound | src/schema/index.ts:70-74 | a bio is accepted exactly when it is at most 500 UTF-16 units long |
| Schema.AstralBioRefused | src/schema/index.ts:70-74 | a bio of more than 250 emoji is refused even though it has fewer than 500 characters |
| Schema.NutrientAmounts.Amounts | src/schema/index.ts:106-117 | the twelve nutrient amounts, one per nutrient field |
| Schema.RecipeIssues | src/schema/index.ts:80-118 | the issues the recipe schema reports, ingredients and nutrients included |
| Schema.IngredientIssuesEmpty | src/schema/index.ts:89-101 | the ingredient list raises no issue exactly when every ingredient is valid |
| Schema.AmountIssuesEmpty | src/schema/index.ts:106-117 | the nutrients raise no issue exactly when every amount is non-negative |
| Schema.RecipeAccepts | src/schema/index.ts:80-118 | a recipe is accepted exactly when the title is 5 to 50 UTF-16 units long, there is at least one ingredient and every ingredient has a name of at least 2 units and a positive price, the procedure has at least 5 units and every nutrient amount is non-negative |
| Schema.SettingsIssuesAsWritten | src/schema/index.ts:120-151 | the issues the settings schema reports as written, the mismatch on `confirmPassword` |
| Schema.SettingsAccepts | src/schema/index.ts:120-151 | settings are accepted exactly when the email is well formed, the names are non-empty, the username is 6 to 20 UTF-16 units long, the bio at most 500 units and the new-password fields agree; the corrected schema accepts exactly what the schema as written accepts |
| Schema.SettingsMismatchOffForm | src/schema/index.ts:148-151 | as written, differing new passwords raise an issue on the path confirmPassword, which is not a field of the settings form |
| Schema.SettingsMismatchOnConfirm | src/schema/index.ts:148-151 | corrected, the mismatch is reported on confirmNewPassword, a field of the form |
| UserSettingsForm.ShownError | src/components/forms/UserSettingsForm.tsx:207-215 | a field shows the message of its first issue, and nothing when it has none |
| UserSettingsForm.MismatchHiddenAsWritten | src/components/forms/UserSettingsForm.tsx:57 | with the schema as written, differing new passwords block the submit while no field of the form shows a message |
| UserSettingsForm.MismatchShownCorrected | src/components/forms/UserSettingsForm.tsx:207-215 | with the corrected schema the confirm field shows "Passwords do not match"; matching passwords give no issue at all |
| UserSettingsForm.LocalSchemaBounds | src/components/forms/UserSettingsForm.tsx:235-251 | the form's own user-info schema needs a parsable date, height at least 140, weight at least 40 and budget at least 1, and reports exactly what the shared schema reports |
| AllergyEditor.AddFacts | src/components/forms/UserSettingsForm.tsx:355-361 | an all-whitespace entry adds nothing and keeps the input; any other entry appends its trimmed text, which is non-empty and already trimmed, and clears the input |
| AllergyEditor.RemoveFacts | src/components/forms/UserSettingsForm.tsx:401 | removing an entry deletes exactly that entry: the ones before stay, the ones after move up by one, and the multiset loses exactly that entry |
| AllergyEditor.RemoveUndoesAdd | src/components/forms/OnboardingForm.tsx:160-166 | removing the entry just added gives back the list from before the add |
| AllergyEditor.AllergyForm.HandleAdd | src/components/forms/OnboardingForm.tsx:160-166 | the add button changes the list and the input as the add function says |
| AllergyEditor.AllergyForm.Remove | src/components/forms/OnboardingForm.tsx:206 | the remove button deletes that entry and keeps the input |
| AllergyEditor.AllergyForm.SetName | src/components/forms/UserSettingsForm.tsx:347-411 | typing replaces the input text and leaves the list alone |
| RecipeFilter.ToggleIngredient | src/components/RecipeFilter.tsx:82-89 | the ingredient selection after a checkbox change |
| RecipeFilter.Without | src/components/RecipeFilter.tsx:82-89 | deselecting removes every occurrence of the value and keeps every other value |
| RecipeFilter.ToggleFlips | src/components/RecipeFilter.tsx:82-89 | selecting an ingredient flips its membership, leaves every other ingredient as it was, and appends a new one at the end |
| RecipeFilter.ToggleTwice | src/components/RecipeFilter.tsx:82-89 | selecting a new ingredient and then deselecting it restores the list |
| RecipeFilter.WithoutAppend | src/components/RecipeFilter.tsx:82-89 | deselecting keeps the relative order of the remaining ingredients |
| RecipeFilter.NutrientPairs | src/components/RecipeFilter.tsx:101-106 | the nutrient pairs are named only by nutrient fields |
| RecipeFilter.NutrientsOk | src/components/RecipeFilter.tsx:37-50 | the nutrient names are distinct and none is one of the filter-value keys |
| RecipeFilter.DeleteResetKeys | src/components/RecipeFilter.tsx:93-99 | the six deletes drop exactly the title, budget, ingredients, high-to-low, allergens and page pairs |
| RecipeFilter.WriteNutrients | src/components/RecipeFilter.tsx:101-106 | the nutrient loop leaves the query without its old nutrient pairs, followed by one pair per non-empty nutrient value in field order |
| RecipeFilter.WriteFilterValues | src/components/RecipeFilter.tsx:108-122 | onto a query without those keys, the title, budget with its ordering flag, ingredients and allergen flag are appended in source order, each only when set |
| RecipeFilter.OnSubmit | src/components/RecipeFilter.tsx:91-126 | the submit handler computes the submitted query and navigates to "/home?" plus its text only when the query is non-empty |
| RecipeFilter.SubmitQuery | src/components/RecipeFilter.tsx:91-122 | the query a submit builds from the current query and the form |
| RecipeFilter.SubmitWritesFilterValues | src/components/RecipeFilter.tsx:108-122 | after a submit, title reads the title when non-empty; budget reads the budget text when the budget is set and non-zero; high-to-low reads "1" exactly when such a budget is not sorted low to high; ingredients reads the comma-joined selection when non-empty; allergens reads "1" exactly when ticked; page is gone |
| RecipeFilter.SubmitWritesNutrients | src/components/RecipeFilter.tsx:101-106 | after a submit each nutrient reads its value when non-empty and is absent otherwise |
| RecipeFilter.SubmitKeepsOtherKeys | src/components/RecipeFilter.tsx:91-126 | the pairs under every key the submit does not manage are kept, in order |
| RecipeFilter.AutoFilterKeptBySubmit | src/components/RecipeFilter.tsx:91-99 | the auto-filter key is not among the keys a submit manages, so a submit keeps it |
| RecipeFilter.HandleAutoFilter | src/components/RecipeFilter.tsx:128-156 | the automatic-filter button always navigates to "/home?" plus the query it builds |
| RecipeFilter.AutoFilterQuery | src/components/RecipeFilter.tsx:128-155 | the query the automatic-filter button builds from the current query |
| RecipeFilter.AutoFilterSets | src/components/RecipeFilter.tsx:147-155 | the automatic filter turns auto-filter on |
| RecipeFilter.AutoFilterClears | src/components/RecipeFilter.tsx:147-155 | the automatic filter clears the six reset keys |
| RecipeFilter.AutoFilterKeepsNutrients | src/components/RecipeFilter.tsx:147-155 | unlike a submit, the automatic filter keeps every nutrient entry as it was |
| RecipeFilter.Defaults | src/components/RecipeFilter.tsx:59-77 | the form defaults hold one text per nutrient field |
| RecipeFilter.DefaultsAfterSubmit | src/components/RecipeFilter.tsx:55-126 | reopening the filter on the query a submit produced gives back the title, the nutrient values, the allergen flag and, when no name holds a comma and the selection is not [""], the selected ingredients |
| RecipeFilter.EmptyIngredientIsLost | src/components/RecipeFilter.tsx:63 | a selection of one empty name is written as an empty entry, which the defaults read back as no selection |
| UrlSearchParams.Get | src/components/RecipeFilter.tsx:59-77 | `get`: the value of the first pair with that name |
| UrlSearchParams.Drop | src/components/RecipeFilter.tsx:93-99 | `delete` of a set of names: the pairs whose name is not among them |
| UrlSearchParams.SetParam | src/components/RecipeFilter.tsx:108-122 | `set`: the first pair with the name takes the value, later ones go, and an absent name is appended |
| UrlSearchParams.Serialize | src/components/RecipeFilter.tsx:123-125 | `toString`: the pairs as `name=value` joined by `&` |
| UrlSearchParams.SetParamFacts | src/components/RecipeFilter.tsx:108-122 | `set` makes the key read the new value and keeps every other pair in place; on an absent key it appends |
| UrlSearchParams.SetParamOthers | src/components/RecipeFilter.tsx:108-122 | `set` leaves the reading of every other key alone |
| UrlSearchParams.GetDrop | src/components/RecipePagination.tsx:15-16 | deleting some keys leaves the reading of every other key alone |
| UrlSearchParams.DropDrop | src/components/RecipeFilter.tsx:93-99 | deleting one set of keys and then another is deleting their union |
| UrlSearchParams.SerializeEmpty | src/components/RecipeFilter.tsx:123-125 | the query text is empty exactly when there are no pairs |
| UrlSearchParams.SearchParams.Delete | src/components/RecipeFilter.tsx:93-99 | `delete` removes every pair with that name and keeps the rest in order |
| UrlSearchParams.SearchParams.Set | src/components/RecipeFilter.tsx:108-122 | `set` rewrites the pairs as the set function says |
| JsText.Trim | src/components/forms/UserSettingsForm.tsx:356 | `trim`: the text without leading and trailing JavaScript whitespace |
| JsText.Utf16Length | src/actions/auth.actions.ts:43 | `length`: at least the number of characters and at most twice it, and 0 only for the empty text |
| JsText.Utf16LengthBmp | src/schema/index.ts:14-21 | text without characters outside the Basic Multilingual Plane is as many units long as it has characters |
| JsText.Utf16LengthAstral | src/schema/index.ts:70-74 | text made only of characters outside the Basic Multilingual Plane is twice as many units long |
| JsText.TrimBlankIff | src/components/forms/UserSettingsForm.tsx:356 | the trimmed text is empty exactly when the input is all whitespace |
| JsText.TrimIdempotent | src/components/forms/UserSettingsForm.tsx:357 | trimming twice is trimming once |
| JsText.ParseInt | src/middleware.ts:8 | `parseInt(s, 10)`: skip whitespace, an optional sign, the longest digit run; none for no digits |
| JsText.ParseIntOfDecimal | src/middleware.ts:8 | `parseInt` reads back exactly the integer that was written in decimal, whatever non-digit text follows |
| JsText.Split | src/components/RecipeFilter.tsx:63 | `split` at every separator |
| JsText.Join | src/components/RecipeFilter.tsx:117-119 | `join` with a separator |
| JsText.SplitJoin | src/components/RecipeFilter.tsx:63 | splitting a comma join gives the pieces back when none holds a comma |
| JsText.JoinEmpty | src/components/RecipeFilter.tsx:117-119 | a join is empty only for no pieces or a single empty piece |
| RecipePagination.Carried | src/components/RecipePagination.tsx:15-16 | the current query without its page pairs |
| RecipePagination.Links | src/components/RecipePagination.tsx:22-42 | the four links with their targets and flags |
| RecipePagination.CarriedTextShape | src/components/RecipePagination.tsx:15-17 | the carried query text is empty or starts with "&", is empty exactly when only page pairs were present, holds no page pair and keeps the reading of every other key |
| RecipePagination.QueryParams | src/components/RecipePagination.tsx:15-17 | the component's query text is the current query without page, prefixed by "&" when non-empty |
| RecipePagination.LinkTargets | src/components/RecipePagination.tsx:22-42 | First carries no page number; Previous, Next and Last read back page - 1, page + 1 and the total number of pages, whatever query is carried |
| RecipePagination.PreviousAriaInverted | src/components/RecipePagination.tsx:28-30 | the Previous link is announced as disabled exactly when it is drawn as enabled, the reverse of the First link |
| RecipePagination.FirstFlags | src/components/RecipePagination.tsx:22-24 | on page 1 First is drawn and announced disabled; on a page below 1 it is drawn disabled but not announced as such |
| RecipePagination.LastFlags | src/components/RecipePagination.tsx:34-42 | Next and Last are disabled exactly on the last page, so on a page past the last they stay enabled |
| RecipePagination.RenderBar | src/components/RecipePagination.tsx:13-47 | the bar is the four links over the carried query, and their page numbers read back as LinkTargets says |
| Carousel.NextIndex | src/components/RecipeCard.tsx:29-31 | the forward arrow moves to (i + 1) mod count and stays in range |
| Carousel.PrevIndex | src/components/RecipeCard.tsx:33-35 | the backward arrow moves to (i - 1) mod count and stays in range |
| Carousel.NextPrevInverse | src/components/RecipeDetail.tsx:26-32 | forward after backward, and backward after forward, return to the same image |
| Carousel.ForwardIsModular | src/components/RecipeDetail.tsx:26-28 | k forward presses from image i show image (i + k) mod count |
| Carousel.FullTurn | src/components/RecipeCard.tsx:29-31 | as many forward presses as there are images come back to the start |
| Carousel.WalkInRange | src/components/RecipeCard.tsx:69 | any sequence of presses keeps the index in range, so the image access is always defined |
| Carousel.ImageCarousel.HandleNext | src/components/RecipeCard.tsx:29-31 | the forward handler sets the index as NextIndex says and keeps it in range |
| Carousel.ImageCarousel.HandlePrev | src/components/RecipeDetail.tsx:30-32 | the backward handler sets the index as PrevIndex says and keeps it in range |
| Carousel.ImageCarousel.ArrowsShown | src/components/RecipeCard.tsx:27 | whether the arrows are rendered: more than one image |
| Carousel.ImageCarousel.CurrentImage | src/components/RecipeDetail.tsx:53 | the shown image is one of the recipe's images |
| Carousel.ImageCarousel.Dots | src/components/RecipeCard.tsx:85-88 | one dot per image |
| Carousel.OneDotLit | src/components/RecipeCard.tsx:85-88 | exactly one dot is lit, the one of the current image |
| Carousel.ArrowsShownIffTheyMove | src/components/RecipeDetail.tsx:54-67 | when the arrows are hidden, pressing either would keep the index; when shown, each arrow changes it |
| Middleware.Decide | src/middleware.ts:6-19 | the middleware's decision for a content-length header |
| Middleware.DecideIff | src/middleware.ts:6-19 | a request is rejected with 413 and the 10MB message exactly when the header is present, non-empty and parses to more than 10485760; otherwise it passes |
| Middleware.DecimalHeader | src/middleware.ts:8-9 | a header holding a decimal integer, with any non-digit tail, is rejected exactly when that integer exceeds 10485760 |
| Middleware.AbsentPasses | src/middleware.ts:7 | a missing or empty header passes |
| Middleware.NoNumberPasses | src/middleware.ts:8 | a header that holds no number passes |
| Middleware.LeadingSpaceIgnored | src/middleware.ts:8 | leading whitespace in the header does not change the decision |
| SettingsActions.SettingsUpdate | src/actions/settings.actions.ts:10-74 | the answer of `updateUserSettings` and the new user table: a missing session refused as Unauthorized, the password checks, then a rejected update when another user has the username |
| SettingsActions.UpdateUserSettings | src/actions/settings.actions.ts:10-74 | the action changes the user table as SettingsUpdate says and leaves user info alone |
| SettingsActions.SettingsUnauthorized | src/actions/settings.actions.ts:22-25 | without a user for the session the action answers "Unauthorized" and writes nothing; a refusal never writes (the intended behaviour, see Findings for a missing session as written) |
| SettingsActions.SettingsUpdateAsWritten | src/actions/settings.actions.ts:13-68 | the action as written, where a missing session looks up the first user row |
| SettingsActions.SignedOutSettingsAsWritten | src/actions/settings.actions.ts:13-68 | as written, a caller without a session is never answered "Unauthorized" while a user exists, no user is written, and without new passwords the action throws |
| SettingsActions.SettingsWritesProfile | src/actions/settings.actions.ts:27-42 | a successful update writes the six profile fields of the session's user and no other user's record |
| SettingsActions.SettingsKeepsPassword | src/actions/settings.actions.ts:44-72 | for a signed-in user whose new username no other user has, unless both new-password fields are filled in, the update succeeds and the stored password is kept |
| SettingsActions.SettingsChangesPassword | src/actions/settings.actions.ts:44-58 | with both fields filled in, different values answer the mismatch, a wrong current password answers "Incorrect current password" and writes nothing, and otherwise, when no other user has the new username, the new password is stored hashed |
| SettingsActions.SettingsUsernameTaken | src/actions/settings.actions.ts:44-68 | a username another user already has is never saved: nothing is written, and once past the password checks the update throws |
| SettingsActions.SchemaRulesOutMismatch | src/actions/settings.actions.ts:45-48 | values that passed the settings schema never reach the mismatch branch |
| SettingsActions.InfoUpdate | src/actions/settings.actions.ts:76-121 | the answer of `updateUserInfo` and the new user-info table, a missing session refused as "User info not found" |
| SettingsActions.UpdateUserInfo | src/actions/settings.actions.ts:76-121 | the old allergies are deleted and then the row is written, with the result InfoUpdate describes; the user table is unchanged |
| SettingsActions.InfoUpdateFacts | src/actions/settings.actions.ts:88-113 | without a user-info row the answer is "User info not found" and nothing changes; with one, the session's row becomes exactly the submitted values, with the new allergies and none of the old, and no other row changes (the intended behaviour, see Findings for a missing session as written) |
| SettingsActions.InfoUpdateAsWritten | src/actions/settings.actions.ts:79-103 | the action as written, where a missing session finds the first user-info row |
| SettingsActions.SignedOutInfoAsWritten | src/actions/settings.actions.ts:79-103 | as written, a caller without a session clears the allergies of the first user-info row and the action then throws; nothing else changes |
| SettingsActions.InfoUpdateIdempotent | src/actions/settings.actions.ts:94-113 | submitting the same values twice leaves the same table as submitting them once |
| OnboardingActions.GetUser | src/actions/onboarding.actions.ts:8-37 | where `getUser` redirects for a fetched user |
| OnboardingActions.GetUserRedirects | src/actions/onboarding.actions.ts:8-37 | getUser always redirects: to /login exactly when the user does not exist, to /home exactly when the user has a user-info row, and to /onboarding/id exactly when the user has none |
| OnboardingActions.SubmitUserInfo | src/actions/onboarding.actions.ts:39-104 | the action changes the user-info table as Submit says and leaves users alone |
| OnboardingActions.Submit | src/actions/onboarding.actions.ts:39-104 | the answer of the onboarding submit and the new user-info table |
| OnboardingActions.SubmitWrongSession | src/actions/onboarding.actions.ts:44-46 | a session that is not the user's own answers "User not found" and writes nothing |
| OnboardingActions.SubmitWritesRow | src/actions/onboarding.actions.ts:53-98 | for the user's own session on a consistent store, submitting succeeds and the row holds the submitted birth date, height, weight and allergies, with a missing budget stored as 0; a missing row is created and no other row changes |
| OnboardingActions.SubmitWithoutUser | src/actions/onboarding.actions.ts:53-103 | without a user record the submit answers "An unknown error occurred"; an existing row is left with its allergies deleted, and no row is added |
| OnboardingActions.SubmitThenGoesHome | src/actions/onboarding.actions.ts:22-26 | after a successful submission getUser sends the user home |
| OnboardingActions.SubmitAgreesWithSettings | src/actions/onboarding.actions.ts:53-78 | when a row exists and a budget is given, onboarding writes the same row as the settings action |
| Header.OtherUsers | src/components/partials/Header.tsx:80-83 | excluding the current user never lengthens the list |
| Header.OtherUsersFacts | src/components/partials/Header.tsx:80-83 | the current user never appears among the listed rows, and every other row does |
| Header.GetUsers | src/components/partials/Header.tsx:79-106 | one listed user per row |
| Header.GetUsersFacts | src/components/partials/Header.tsx:99-104 | each listed user copies its row and is followed exactly when its id is among the following ids |
| Header.GetUsersOnlyMembership | src/components/partials/Header.tsx:99-104 | two following lists with the same members give the same listing |
| Header.DisplayOf | src/components/partials/Header.tsx:12-29 | the fields handed to the user button for the current user id |
| Header.DisplayFacts | src/components/partials/Header.tsx:12-29 | without a row for the current user every field is blank; with one, names and email are the row's, the image is blank exactly when the row has no image or an empty one, and a non-blank image is the stored one |
| Searchbar.SetFollowed | src/components/Searchbar.tsx:54-64 | the update keeps the list's length |
| Searchbar.SetFollowedFacts | src/components/Searchbar.tsx:54-64 | entries with the clicked id get the new flag and every other field and every other entry stays as it was |
| Searchbar.Label | src/components/Searchbar.tsx:114 | the button reads "(-) Unfollow" exactly when the user is followed |
| Searchbar.ClickTwiceRestores | src/components/Searchbar.tsx:113-114 | with distinct ids, one click flips that user's flag and label, and a second click restores the list |
| Searchbar.FollowAgreesWithHeader | src/components/Searchbar.tsx:47-66 | following a user in the search bar gives the listing the header would build with that id added; unfollowing, with the id removed |
| Searchbar.SearchbarState.Click | src/components/Searchbar.tsx:47-48 | a click while loading changes nothing; otherwise loading starts with a pending request that flips the user's flag |
| Searchbar.SearchbarState.Complete | src/components/Searchbar.tsx:54-65 | when the request returns, its flag is written into the list and loading ends |
| LinkUrl.FormatPathName | src/components/LinkUrl.tsx:7 | one leading slash is removed and any other text is unchanged; the result is a suffix of the input, at most one character shorter |
| LinkUrl.OneSlashOnly | src/components/LinkUrl.tsx:7 | only the first of two leading slashes is removed |
| LinkUrl.FormatTwice | src/components/LinkUrl.tsx:7 | formatting a second time changes the text exactly when a leading slash remains |

## Left out

- `sanitizeHtml` (src/lib/sanitize.ts:10-30), an early return for empty input followed by a chain of regular-expression replacements and a final `trim`, is not modelled; only `sanitizeText` is.
- Prisma is modelled as two maps, users and user infos, keyed by user id. Query-builder semantics are not modelled: `include` is a lookup into the second map and `deleteMany` is clearing the allergy list. In `getUser`, `findFirst` with an undefined id is taken as the lookup of the id given. The order of the rows is not modelled: the row a query without a filter finds is a parameter, `first`.
- The store rejects an update that gives a user another user's username: the settings action answers `Rejected` and writes nothing (SettingsActions.SettingsUsernameTaken). Username is the only column taken as unique, because the profile page looks users up by it with `findUnique`. The Prisma schema is not part of this model, so no other unique constraint, such as one on email, is modelled.
- The store rejects an update of a missing row, and the model lands that case in the action's catch branch. The database error message itself is not modelled.
- Argon2 `hash` and `verify` are function parameters; their cryptography is out of scope.
- Lucia sessions and cookies are out of scope. The session is an input, and login's session cookie and redirect are returned as values.
- `setTimeout` and `setInterval` are explicit calls (`Cleanup(now)`, `ExpireAttempt`); real time and concurrency between requests are not modelled.
- The email-format rule and `Date.parse` are boolean inputs to the schemas; their grammars are not modelled.
- Heights, weights, budgets and nutrient amounts are Dafny `real`s. Floating-point rounding and the parsing of numeric text in the nutrient filter are not modelled.
- UrlSearchParams.Serialize: pairs are joined as `name=value` with `&`; percent-encoding is left out.
- `revalidatePath`, logging, and the `redirect` exception mechanism are not modelled; a redirect is a returned value.
- React rendering, focus, the search dialog's open state and the toast messages are not modelled; components are state plus handlers.
- The `userFollow` and `userUnfollow` actions: src/actions/user.actions.ts is not part of this model. The search bar's request is a pending event whose completion is a separate method.
- The home feed query that reads the filter keys on the server is not part of this model.
- RecipeFilter.Defaults: the budget and the ordering flag are not read back from the query, because the source does not read them either.
- Auth.Register: the catch branch of `register`, which answers a thrown error's message, is not modelled; the hash and the create are taken to succeed.
- `logout` is not modelled; it only clears the session.
- SettingsUnauthorized: states the intended refusal of a caller without a session. The code as written looks up the first user instead; that behaviour is SettingsActions.SettingsUpdateAsWritten, recorded under Findings.
- InfoUpdateFacts: states the intended refusal of a caller without a session. The code as written clears the first user-info row's allergies and then throws; that behaviour is SettingsActions.InfoUpdateAsWritten, recorded under Findings.
- SettingsActions.UpdateUserSettings and SettingsActions.UpdateUserInfo, the methods on the store, follow the intended functions SettingsUpdate and InfoUpdate, not the as-written ones.
- JsText.ParseInt models `parseInt` on integers: JavaScript's rounding of very large values to doubles is not modelled. It does not matter for the 10 MiB comparison, where every value is exact.

## Findings

| source | as written | input that shows it | evidently intended | confidence | as-written member | corrected member |
|---|---|---|---|---|---|---|
| src/schema/index.ts:148-151 | the settings schema reports differing new passwords on path `confirmPassword`, but the settings form shows errors only on `confirmNewPassword` (src/components/forms/UserSettingsForm.tsx:207-215) | newPassword "a", confirmNewPassword "b", every other field valid: the submit is blocked and no message appears | report the mismatch on `confirmNewPassword`, so the form shows "Passwords do not match" under that field | not executed | UserSettingsForm.MismatchHiddenAsWritten | UserSettingsForm.MismatchShownCorrected |
| src/actions/settings.actions.ts:13-25 | without a session `sessionId` is `undefined`, which Prisma drops from the `findFirst` filter, so the lookup finds the first user instead of none; the password checks run against that user and the final `update`, whose unique filter is empty too, throws | no session, a non-empty user table, no new password: the action throws instead of answering "Unauthorized" | answer "Unauthorized" when there is no session | not executed | SettingsActions.SignedOutSettingsAsWritten | SettingsActions.SettingsUnauthorized |
| src/actions/settings.actions.ts:79-103 | without a session the `findFirst` on user info finds the first row, its allergies are deleted, and then the `update` throws | no session, a non-empty user-info table: the first row loses its allergies | answer "User info not found" and write nothing | not executed | SettingsActions.SignedOutInfoAsWritten | SettingsActions.InfoUpdateFacts |
