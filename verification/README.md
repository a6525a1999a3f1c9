# CrazyView account store and account flows, in Dafny

CrazyView is a React streaming front end. It has no server. Accounts,
password-reset codes, the signed-in session and the chosen profile all live
in the browser's `localStorage`, managed by the `AuthContext` provider. This
project models that store and the pages that drive it:

- `AuthStore` (`auth_store.dfy`): `AuthContext`'s account store.
  - Covers `toUserObject`, `login`, `signup`, `logout`, `updateUser` with its
    key whitelist and email-uniqueness guard, and `updateProfile`,
    `addProfile`, `removeProfile` and `selectProfile`.
  - Also `verifyPassword`, `requestPasswordReset` and `resetPassword`, plus
    a step function over all operations for the store-wide invariant: no two
    records share an email.
  - The store is an immutable value
    `Store(users, resetCodes, session, currentProfile)`. Each operation is a
    function from store to store, or to an `Outcome` carrying the reply.
- `MyList` (`my_list.dfy`): the watch list of `MyListContext`: add, remove,
  toggle, membership.
- `SignupWizard` (`signup_page.dfy`): the four-step signup page.
  - Covers the email and password rules and the card-number and expiry input
    formatters.
  - Also the step handlers, and the ordered payment checks ahead of
    `signup`.
- `TwoFactor` (`two_fa.dfy`): the three dialogs of `TwoFAModal`.
  - The enable dialog: pick a channel, send a code, type it back.
  - The disable dialog: a code or the password.
  - The identity check that guards the change-email form.
- `AccountPage` (`account_page.dfy`): the account page's handlers. Each
  validates a form and issues one `updateUser` or `updateProfile` call. It
  also models the gate that only opens the change-email form after a code
  check while two-factor is on.
- `ProfilesPage` (`profiles_page.dfy`): the "Who's watching?" page: select,
  add, rename and delete profiles, manage mode, and the list it shows.
- `Strings`, `Codes` and `Optional`: JavaScript string behaviour the code
  relies on, made explicit.
  - `trim` and `\s` strip the ECMA-262 white-space and line-terminator set.
  - `\d` is ASCII only.
  - `toLowerCase` is modelled on ASCII.
  - `.length` counts UTF-16 code units.
  - `String(n)` and the six-digit `generateCode` read back to the drawn
    number.

Things outside the program become parameters:

- the clock: `today` as an ISO date, `now` in milliseconds;
- `Math.random()`: a real `r` in [0, 1);
- the fresh account id;
- the keys of the legacy `netflix_users` object the account page still
  reads.

A record's fields are typed: a string, a boolean, a nullable string or a
list of strings. An update is a sequence of `(key, value)` entries with
distinct keys, each value of its field's shape.

## Model

| member | source | states |
|---|---|---|
| AuthStore.ToUserObject | src/context/AuthContext.jsx:22-39 | the session view copies every field of the record except name, plan and member-since date; a blank name becomes "User", a blank plan "standard" and a blank date today's date, and non-blank ones are kept |
| AuthStore.IndexOfId | src/context/AuthContext.jsx:118 | `findIndex` by id: the position found holds the id and no earlier record does; with no result, no record holds it |
| AuthStore.LoginProfile | src/context/AuthContext.jsx:81 | the profile a login selects is never empty, and is the first stored profile when that one is non-empty |
| AuthStore.Login | src/context/AuthContext.jsx:72-85 | login succeeds exactly when the first record whose email matches the trimmed email case-insensitively holds the exact password; a later matching record is never used; a refused login changes nothing, and a successful one signs in that first record on its first profile |
| AuthStore.LoginSucceedsIffCredentialsMatch | src/context/AuthContext.jsx:72-85 | with unique emails, login succeeds if and only if some record matches both the email (trimmed, case-insensitive) and the password |
| AuthStore.Signup | src/context/AuthContext.jsx:87-113 | refused with no change when the trimmed email is taken case-insensitively; otherwise exactly one record is appended, holding the trimmed email, the password, the fresh id, the trimmed name or "User", the chosen plan or "standard", one profile "Profile 1", today as member-since date, no phone, two-factor off with no method or value, the "Visa"/"4242" card and an active plan with no end date, and nothing else changes |
| AuthStore.SignupKeepsEmailsUnique | src/context/AuthContext.jsx:87-113 | signup never creates two records with the same email |
| AuthStore.Logout | src/context/AuthContext.jsx:175-180 | logout clears the session and the profile and keeps every record and reset code |
| AuthStore.KeyMap | src/context/AuthContext.jsx:126-140 | an update key is applied exactly when it is one of the thirteen whitelisted field names, so `id` and `password` can never be written |
| AuthStore.Set | src/context/AuthContext.jsx:142 | writing one field makes it read back the value written, and leaves every other field and the id as they were |
| AuthStore.ApplyUpdates | src/context/AuthContext.jsx:141-143 | after the loop over the update entries, each field holds the update's value for its key if there is one, and its old value otherwise |
| AuthStore.Lookup | src/context/AuthContext.jsx:142 | `updates[key]` is absent exactly when no entry has that key |
| AuthStore.SessionIndex | src/context/AuthContext.jsx:115-118 | `updateUser` finds a position exactly when a session with a non-empty id exists and some record holds that id; the position is the first such record |
| AuthStore.Commit | src/context/AuthContext.jsx:141-147 | the write changes one record only, keeps its password and id, gives every field its written value, and refreshes the session from the new record |
| AuthStore.UpdateUserAsWritten | src/context/AuthContext.jsx:115-148 | the code as written: no change without a session record or when the guard (only for a non-empty email, compared trimmed) finds the email held; otherwise the raw values are committed |
| AuthStore.AsWrittenStoresDuplicate | src/context/AuthContext.jsx:120-125 | as written, a new email that another record stores exactly but whose trimmed form nobody holds gets through, and two records end up sharing it |
| AuthStore.UntrimmedEmailBreaksUniqueness | src/context/AuthContext.jsx:120-125 | a concrete store with unique emails that the as-written update turns into one with a duplicate ("b@x " twice) |
| AuthStore.EmptyEmailSkipsGuard | src/context/AuthContext.jsx:120 | a concrete store where, as written, the empty email bypasses the guard and is stored twice |
| AuthStore.NormalizeEmail | src/context/AuthContext.jsx:120-143 | the corrected write keeps every entry's key, keeps every non-email entry unchanged and the update well formed |
| AuthStore.NormalizedWrite | src/context/AuthContext.jsx:141-143 | writing the normalised update is writing the given one, except that the email is stored trimmed |
| AuthStore.UpdateUser | src/context/AuthContext.jsx:115-148 | the corrected `updateUser`: unchanged without a session record or when another record holds the trimmed new email; otherwise only the session's record changes, non-email fields take the written values, the email is stored trimmed, passwords and ids stay, and the session is refreshed |
| AuthStore.UpdateUserKeepsSessionIndex | src/context/AuthContext.jsx:118 | after an update the session's record is found at the same position |
| AuthStore.UpdateUserKeepsEmailsUnique | src/context/AuthContext.jsx:115-148 | the corrected update never lets two records share an email (case-insensitively) |
| AuthStore.AsWrittenAgreesOnTrimmedEmail | src/context/AuthContext.jsx:120-143 | for updates whose email, if any, is non-empty and trimmed, the code as written and the corrected update give the same store |
| AuthStore.FirstIndex | src/context/AuthContext.jsx:153 | `indexOf`: the position holds the name and no earlier position does |
| AuthStore.ReplaceFirst | src/context/AuthContext.jsx:152-154 | the list keeps its length; without the old name it is unchanged; otherwise exactly its first occurrence is renamed |
| AuthStore.RemoveAll | src/context/AuthContext.jsx:166 | the filter removes every occurrence of the name, keeps every other name with its multiplicity, and keeps a leading other name first |
| AuthStore.RemoveAllAppend | src/context/AuthContext.jsx:166 | the filter keeps order: filtering a concatenation is concatenating the filtered parts |
| AuthStore.SetProfiles | src/context/AuthContext.jsx:155 | writing `{ profiles }` replaces the session record's list, refreshes the session, and changes nothing else |
| AuthStore.UpdateProfile | src/context/AuthContext.jsx:150-156 | without a session nothing changes; otherwise the session's list with the first old name renamed is written back |
| AuthStore.AddProfile | src/context/AuthContext.jsx:158-162 | without a session nothing changes; otherwise the session's list with the name appended is written back |
| AuthStore.RemoveProfile | src/context/AuthContext.jsx:164-173 | nothing changes when there is no session or when the filter would empty the list; otherwise the filtered list is written, and a removed current profile becomes the first name left |
| AuthStore.RemoveProfileNeverEmpties | src/context/AuthContext.jsx:167 | no record that had a profile is left with none |
| AuthStore.SelectProfile | src/context/AuthContext.jsx:182-185 | only the current profile changes, to the name selected |
| AuthStore.VerifyPassword | src/context/AuthContext.jsx:187-192 | without a session email every password is refused; otherwise a password is accepted exactly when the first record with exactly that email holds it |
| AuthStore.LoginThenVerifyPassword | src/context/AuthContext.jsx:187-192 | right after logging in with a non-blank email, `verifyPassword` accepts exactly the password used to log in |
| AuthStore.RequestPasswordReset | src/context/AuthContext.jsx:194-209 | an unknown email is refused with no change; otherwise a six-digit code expiring ten minutes after `now` is stored under the trimmed, lower-cased email (replacing an older one) and returned |
| AuthStore.ResetPassword | src/context/AuthContext.jsx:211-234 | a missing or wrong code is refused with no change; a code past its expiry is refused and deleted; otherwise the first matching record gets the new password and the code is deleted, or "account not found" is returned |
| AuthStore.ResetCodeWorksOnce | src/context/AuthContext.jsx:229-232 | after a successful reset, every further reset for that email is refused until a new code is requested |
| AuthStore.ExpiredCodeIsDiscarded | src/context/AuthContext.jsx:221-225 | an expired code is refused and removed, so a second attempt with it is refused as invalid |
| AuthStore.RequestThenReset | src/context/AuthContext.jsx:194-234 | a code requested for a registered email and redeemed within ten minutes sets that account's password |
| AuthStore.StepKeepsEmailsUnique | src/context/AuthContext.jsx:87-234 | every store operation, with the corrected `updateUser`, keeps the stored emails unique |
| AuthStore.RunKeepsEmailsUnique | src/context/AuthContext.jsx:87-234 | any sequence of store operations, with the corrected `updateUser`, keeps the stored emails unique |
| AuthStore.RunAsWrittenKeepsEmailsUnique | src/context/AuthContext.jsx:115-148 | with `updateUser` as written, any sequence of operations whose email updates carry a trimmed, non-blank address, as the account page's do, keeps the stored emails unique |
| MyList.IsInList | src/context/MyListContext.jsx:39 | an id is on the list exactly when some entry has it |
| MyList.AddToList | src/context/MyListContext.jsx:23-27 | afterwards the id is on the list; an id already there leaves the list unchanged; otherwise the item is appended at the end; no id is ever duplicated |
| MyList.RemoveFromList | src/context/MyListContext.jsx:29-31 | no entry with the id remains and the list does not grow |
| MyList.RemoveMembership | src/context/MyListContext.jsx:30 | an item stays exactly when it was there and has another id |
| MyList.RemoveKeepsOthers | src/context/MyListContext.jsx:30 | every item with another id keeps its number of occurrences |
| MyList.RemoveFromUnique | src/context/MyListContext.jsx:29-31 | on a list without duplicate ids, removing an id that is on it drops exactly that entry and keeps the order of the rest |
| MyList.ToggleInList | src/context/MyListContext.jsx:33-37 | toggling flips whether the id is on the list and never duplicates an id |
| MyList.ToggleTwiceRestores | src/context/MyListContext.jsx:33-37 | toggling an absent item twice restores the list |
| MyList.ToggleTwiceMovesToEnd | src/context/MyListContext.jsx:33-37 | toggling a present item twice moves it to the end and changes nothing else |
| Strings.Trim | src/context/AuthContext.jsx:74 | `trim` leaves no white space at either end and never lengthens the string |
| Strings.TrimStartShape | src/context/AuthContext.jsx:74 | the start of the string that `trim` drops is all white space |
| Strings.TrimEndShape | src/context/AuthContext.jsx:74 | the end of the string that `trim` drops is all white space |
| Strings.TrimIdempotent | src/context/AuthContext.jsx:74 | trimming twice is trimming once |
| Strings.Digits | src/pages/AccountPage.jsx:64 | `replace(/\D/g, "")` leaves only digits |
| Strings.DigitsKeepsDigits | src/pages/AccountPage.jsx:64 | the digit filter keeps every digit, as often as it occurs |
| Strings.DigitsAppend | src/pages/AccountPage.jsx:64 | the digit filter works piecewise over concatenation |
| Strings.StripSpaces | src/pages/SignupPage.jsx:61 | `replace(/\s/g, "")` leaves no white space |
| Strings.StripSpacesKeepsOthers | src/pages/SignupPage.jsx:61 | removing white space keeps every other character, as often as it occurs |
| Strings.Take | src/pages/SignupPage.jsx:88 | `slice(0, n)` is the prefix of length `min(n, length)` |
| Strings.DigitField | src/components/TwoFAModal.jsx:124 | a digits-only input box holds the first `n` digits typed, in order, or all of them when fewer were typed |
| Strings.DigitFieldIdempotent | src/components/TwoFAModal.jsx:124 | filtering the box's content again changes nothing |
| Strings.JsLength | src/pages/SignupPage.jsx:30 | `.length` counts UTF-16 code units: between one and two per character |
| Strings.JsLengthOfBmp | src/pages/SignupPage.jsx:30 | for text in the Basic Multilingual Plane, `.length` is the character count |
| Codes.DecimalString | src/components/TwoFAModal.jsx:6 | `String(n)` is a non-empty string of digits |
| Codes.DecimalRoundTrip | src/components/TwoFAModal.jsx:6 | reading back the digits `String(n)` wrote gives `n` |
| Codes.DecimalLength | src/components/TwoFAModal.jsx:6 | a number between 10^k and 10^(k+1) is written with k + 1 digits |
| Codes.CodeFromRandom | src/components/TwoFAModal.jsx:6 | `Math.floor(100000 + r * 900000)` lies in [100000, 999999] |
| Codes.GenerateCode | src/components/TwoFAModal.jsx:5-7 | a code is six digits that read back to the drawn number, in [100000, 999999] |
| SignupWizard.IndexOf | src/pages/SignupPage.jsx:29 | the first occurrence of a character, or the length when it is absent |
| SignupWizard.ValidateEmailMatchesPattern | src/pages/SignupPage.jsx:29 | the email check accepts exactly the strings of `/^[^\s@]+@[^\s@]+\.[^\s@]+$/` |
| SignupWizard.ValidatePassword | src/pages/SignupPage.jsx:30 | an accepted password has 2 to 60 characters, and every one of 4 to 30 characters is accepted |
| SignupWizard.PasswordRuleOnBmp | src/pages/SignupPage.jsx:30 | without astral characters, a password passes exactly when it has 4 to 60 characters |
| SignupWizard.GroupShape | src/pages/SignupPage.jsx:88 | the grouped card number has a space at every fifth position and digits elsewhere, with no trailing space |
| SignupWizard.GroupRoundTrip | src/pages/SignupPage.jsx:88 | removing the separators gives the digits back, with either filter |
| SignupWizard.TakeGrouped | src/pages/SignupPage.jsx:88 | cutting the grouped string before the k-th separator is the grouping of the first 4k digits |
| SignupWizard.FormatCardNumber | src/pages/SignupPage.jsx:88 | the card field is the first sixteen digits typed, grouped by four, at most 19 characters |
| SignupWizard.CardFormatIdempotent | src/pages/SignupPage.jsx:88 | the field keeps the first sixteen digits, and formatting it again changes nothing |
| SignupWizard.FormatExpiry | src/pages/SignupPage.jsx:89-93 | the expiry holds the first four digits typed, with a slash after the second once there are two, and at most five characters |
| SignupWizard.ExpiryFormatIdempotent | src/pages/SignupPage.jsx:89-93 | formatting the expiry field again changes nothing |
| SignupWizard.PaymentProblem | src/pages/SignupPage.jsx:57-77 | the checks run card, expiry, security code, zip in that order; each is reported exactly when it is the first that fails, and none is reported exactly when all pass |
| SignupWizard.FormattedCardCheck | src/pages/SignupPage.jsx:61-62 | a formatted card number passes exactly when at least 13 digits were typed |
| SignupWizard.FormattedExpiryCheck | src/pages/SignupPage.jsx:66 | a formatted expiry passes exactly when at least 3 digits were typed |
| SignupWizard.ShortYearAccepted | src/pages/SignupPage.jsx:66 | typing "123" gives "12/3", which the expiry check accepts |
| SignupWizard.Apply | src/pages/SignupPage.jsx:32-55 | the email step advances only on a valid trimmed email and the password step only on a valid password; otherwise an error is set; Back goes one step back; only the plan step changes the plan |
| SignupWizard.ApplyKeepsConsistent | src/pages/SignupPage.jsx:32-55 | every event keeps the wizard consistent: a step past the email step has a valid email behind it, one past the password step a valid password, and the payment fields are filtered |
| SignupWizard.RunKeepsConsistent | src/pages/SignupPage.jsx:32-55 | however the person clicks and types, the wizard stays consistent |
| SignupWizard.DisplayName | src/pages/SignupPage.jsx:79 | `name.trim() \|\| "User"` is never empty, and is the trimmed name when that is not blank |
| SignupWizard.SubmitPayment | src/pages/SignupPage.jsx:57-86 | off the payment step nothing happens; a failed check is reported with no change to the store; otherwise `signup` runs with the trimmed email and display name, and its refusal is shown or the wizard finishes |
| SignupWizard.SubmitCreatesValidAccount | src/pages/SignupPage.jsx:57-86 | when the wizard creates an account, it is the one new record, with an email the email check accepts, stored trimmed, and a password the password rule accepts |
| TwoFactor.CodeBox | src/components/TwoFAModal.jsx:124 | the typed code is the first six digits typed, in order, or all of them when fewer were typed |
| TwoFactor.TypedCode | src/components/TwoFAModal.jsx:124 | a six-digit code typed into the box is kept exactly |
| TwoFactor.DefaultChannel | src/components/TwoFAModal.jsx:10-12 | the dialog starts on phone exactly when there is no email but there is a phone |
| TwoFactor.OpenEnable | src/components/TwoFAModal.jsx:9-21 | the dialog opens on step 1 with nothing typed, on the default channel, and with no target exactly when the account has neither contact |
| TwoFactor.ChooseChannel | src/components/TwoFAModal.jsx:72-87 | the channel changes only on step 1, and only to a channel whose contact exists |
| TwoFactor.SendCode | src/components/TwoFAModal.jsx:23-40 | with a target, a fresh six-digit code and step 2; without one, an error and a switch to a channel that has a contact |
| TwoFactor.EnterCode | src/components/TwoFAModal.jsx:124 | on step 2 the box takes the filtered text, and nothing else changes |
| TwoFactor.Resend | src/components/TwoFAModal.jsx:52-61 | on step 2, a fresh six-digit code replaces the old one and the box is cleared |
| TwoFactor.BackToChannel | src/components/TwoFAModal.jsx:135 | Back returns from step 2 to step 1, does nothing on step 1, and changes nothing but the step |
| TwoFactor.SendThenBack | src/components/TwoFAModal.jsx:23-40 | Back after a successful send returns to the channel choice on the same channel |
| TwoFactor.VerifyCode | src/components/TwoFAModal.jsx:42-50 | the dialog confirms exactly when the typed code equals the sent one on step 2, and then names the channel and trimmed target |
| TwoFactor.EnableStepKeepsConsistent | src/components/TwoFAModal.jsx:9-61 | every event keeps the dialog consistent: a channel with a contact whenever the account has one, and a code sent to a non-blank contact on step 2 |
| TwoFactor.EnableRunKeepsConsistent | src/components/TwoFAModal.jsx:9-61 | any sequence of events keeps the dialog consistent |
| TwoFactor.ConfirmedContactIsReal | src/components/TwoFAModal.jsx:42-50 | however the dialog is driven, a confirmation names a non-blank, trimmed contact and follows a six-digit code typed back exactly |
| TwoFactor.SendFailsOnlyWithoutContact | src/components/TwoFAModal.jsx:23-40 | sending from the opened dialog reaches step 2 exactly when the account has an email or a phone |
| TwoFactor.ResendReplacesCode | src/components/TwoFAModal.jsx:52-61 | after a resend only the new code is accepted |
| TwoFactor.OpenDisable | src/components/TwoFAModal.jsx:144-167 | the disable dialog opens in code mode with empty boxes; a code is sent only when a contact is stored |
| TwoFactor.DisableResend | src/components/TwoFAModal.jsx:152-163 | a resend stores a fresh six-digit code and clears the box and the error |
| TwoFactor.DisableSubmitWith | src/components/TwoFAModal.jsx:169-184 | in code mode it confirms exactly when the codes match; in password mode, exactly when the verifier's answer is truthy; a refusal sets an error |
| TwoFactor.DisableSubmitAsWritten | src/components/TwoFAModal.jsx:178 | as written, password mode always confirms, because the unawaited promise is truthy |
| TwoFactor.AnyPasswordDisables | src/components/TwoFAModal.jsx:178 | a wrong password turns two-factor off |
| TwoFactor.DisableSubmit | src/components/TwoFAModal.jsx:169-184 | with the verdict awaited, password mode confirms exactly when the password is right, and code mode exactly when the codes match |
| TwoFactor.DisableSubmitAgreement | src/components/TwoFAModal.jsx:169-184 | the corrected and as-written handlers agree in code mode and whenever the password is right |
| TwoFactor.EmptyCodeWithoutContact | src/components/TwoFAModal.jsx:165-176 | with no stored contact nothing is sent, and submitting the empty box confirms |
| TwoFactor.CodeNeededWithContact | src/components/TwoFAModal.jsx:165-176 | with a stored contact, the disable dialog confirms by code exactly when the code sent is typed back |
| TwoFactor.OpenCheck | src/components/TwoFAModal.jsx:252-263 | the identity check sends a six-digit code as soon as it opens |
| TwoFactor.CheckResend | src/components/TwoFAModal.jsx:265-267 | a resend stores a fresh six-digit code and clears the box |
| TwoFactor.CheckType | src/components/TwoFAModal.jsx:299 | typing sets the box to the first six digits typed, in order, and nothing else changes |
| TwoFactor.CheckSubmit | src/components/TwoFAModal.jsx:269-277 | the check confirms exactly when the typed code equals the sent one; otherwise an error is shown |
| TwoFactor.CheckNeedsFullCode | src/components/TwoFAModal.jsx:269-277 | a confirmation always follows a full six-digit code, and the empty box never passes |
| AccountPage.Record | src/context/AuthContext.jsx:118-119 | a record is written exactly when `updateUser` finds the session's id |
| AccountPage.Put | src/context/AuthContext.jsx:141-147 | writing the session's record makes it read back as written; every other record, the password, the reset codes and the current profile stay |
| AccountPage.PutTwice | src/context/AuthContext.jsx:141-147 | a second write to the session's record replaces the first |
| AccountPage.Assign | src/context/AuthContext.jsx:141-143 | writing fields in order leaves a field not named unchanged, and a named one holding the last value written to it |
| AccountPage.ApplyPuts | src/context/AuthContext.jsx:141-143 | the update a handler builds writes its fields in order |
| AccountPage.WriteRecord | src/context/AuthContext.jsx:115-148 | an update of fields other than the email leaves the store as it is without a session record, and otherwise assigns exactly those fields in that record |
| AccountPage.ChangePlan | src/pages/AccountPage.jsx:49-52 | the record takes the new plan, cancellation off and no end date; nothing else changes |
| AccountPage.CancelPlan | src/pages/AccountPage.jsx:54-59 | the record is marked cancelled with the given end date; nothing else changes |
| AccountPage.CancelThenChangePlan | src/pages/AccountPage.jsx:49-59 | choosing a plan after cancelling gives the same store as choosing it directly |
| AccountPage.UpdateCard | src/pages/AccountPage.jsx:61-72 | refused with the invalid-card error and no change unless exactly four digits were typed; otherwise the record takes those digits and the chosen brand |
| AccountPage.UpdateCardIdempotent | src/pages/AccountPage.jsx:61-72 | saving the same card twice is saving it once |
| AccountPage.EmailWriteAgrees | src/pages/AccountPage.jsx:85 | for the non-blank trimmed address the page sends, the as-written and the corrected `updateUser` agree, and uniqueness is kept |
| AccountPage.WriteEmail | src/pages/AccountPage.jsx:85 | the email write leaves the store unchanged when another record holds the address; otherwise it sets the record's email and nothing else |
| AccountPage.ChangeEmail | src/pages/AccountPage.jsx:74-90 | a blank address is refused; a legacy-listed address other than the session's own is refused; every other address passes without error and the trimmed address is written; stored emails stay unique |
| AccountPage.AddPhone | src/pages/AccountPage.jsx:92-102 | refused exactly when the number is blank; otherwise the record's phone becomes the trimmed number and nothing else changes |
| AccountPage.AcceptedPhoneIsContact | src/pages/AccountPage.jsx:97 | a number the page stores is one the two-factor dialog offers as a contact |
| AccountPage.ChannelName | src/pages/AccountPage.jsx:107 | the method is stored as "email" or "phone", one name per channel |
| AccountPage.Enable2FA | src/pages/AccountPage.jsx:104-111 | the record gets two-factor on, with the confirmed channel and contact, and nothing else changes |
| AccountPage.Disable2FA | src/pages/AccountPage.jsx:113-120 | the record gets two-factor off, with no channel and an empty contact, and nothing else changes |
| AccountPage.EnableThenDisable | src/pages/AccountPage.jsx:104-120 | turning two-factor on then off gives the same store as turning it off |
| AccountPage.TwoFAClick | src/pages/AccountPage.jsx:122-125 | the button opens the disable dialog exactly when the session has two-factor on |
| AccountPage.DisableByPassword | src/pages/AccountPage.jsx:418-425 | with the verdict awaited, a wrong password leaves the store unchanged and the right one turns two-factor off |
| AccountPage.DisableByPasswordAsWritten | src/pages/AccountPage.jsx:418-425 | as written, password mode always turns two-factor off |
| AccountPage.SaveProfile | src/pages/AccountPage.jsx:136-142 | without a profile being edited, or with a blank name, nothing changes; otherwise the first occurrence is renamed to the trimmed name |
| AccountPage.GateStep | src/pages/AccountPage.jsx:352-362 | with two-factor on, submitting an open check whose typed code matches the sent one opens the change-email form, and the form opens in no other way |
| AccountPage.GateRunKeepsConsistent | src/pages/AccountPage.jsx:352-362 | any sequence of clicks keeps an open check holding a six-digit sent code; with two-factor off the page never leaves its state |
| AccountPage.FormNeedsFullCode | src/pages/AccountPage.jsx:127-134 | the step into the change-email form consumes a confirmed six-digit code |
| ProfilesPage.Select | src/pages/ProfilesPage.jsx:22-31 | in manage mode a click opens the editor on that profile and leaves the store alone; otherwise it selects the profile and navigates |
| ProfilesPage.SubmitAdd | src/pages/ProfilesPage.jsx:33-40 | a blank name changes nothing; otherwise the trimmed name is added and the dialog closes with the box cleared |
| ProfilesPage.SaveEdit | src/pages/ProfilesPage.jsx:42-49 | something changes only when a profile is being edited and the trimmed name is non-blank and new; then the profile is renamed and the editor closes |
| ProfilesPage.Delete | src/pages/ProfilesPage.jsx:51-58 | something changes only when a profile is being edited and more than one is shown; then it is removed and the editor closes |
| ProfilesPage.Shown | src/pages/ProfilesPage.jsx:20 | the list shown is the session's own, even when empty, and the three placeholders when nobody is signed in |
| ProfilesPage.ShownAfterWrite | src/pages/ProfilesPage.jsx:20 | once a list write lands, the page shows the written list, or the old one when the record is gone |
| ProfilesPage.AddShowsName | src/pages/ProfilesPage.jsx:33-40 | adding puts the trimmed name at the end of the list shown |
| ProfilesPage.SaveRenamesFirst | src/pages/ProfilesPage.jsx:42-49 | saving renames the first occurrence of the old name in the list shown, and nothing else in it |
| ProfilesPage.OpenThenSaveChangesNothing | src/pages/ProfilesPage.jsx:22-49 | opening the editor on a name without surrounding spaces and saving at once changes nothing |
| ProfilesPage.OpenThenSaveTrims | src/pages/ProfilesPage.jsx:22-49 | opening the editor on a name with surrounding spaces and saving at once renames it to its trimmed form |
| ProfilesPage.DeleteRemovesName | src/pages/ProfilesPage.jsx:51-58 | deleting takes every occurrence of the name off the list shown, unless it was the only name there |
| ProfilesPage.WriteKeepsNonEmpty | src/context/AuthContext.jsx:155 | writing a non-empty profile list leaves no record or session without a profile |
| ProfilesPage.ApplyKeepsInvariants | src/pages/ProfilesPage.jsx:22-58 | every page event keeps the editor open exactly while a profile is being edited, and leaves no user without a profile |
| ProfilesPage.RunKeepsInvariants | src/pages/ProfilesPage.jsx:22-58 | no sequence of events on the page leaves a user without a profile |
| ProfilesPage.RunNeverShowsEmpty | src/pages/ProfilesPage.jsx:20-58 | starting from non-empty lists, the page never shows an empty list |

## Left out

- Storage is not modelled byte for byte.
  - `localStorage`, JSON (de)serialisation and `try`/`catch` around parsing are left out. The store is one immutable value; a corrupt entry read back as empty is not modelled.
  - `persistUser` and the session copy kept under `crazyview_user` are left out.
- Loading the session at start-up (`useEffect` in `AuthProvider`) and the `loading` flag are left out. Every model starts from a given store.
- Record shape is idealised.
  - Records are well typed. A stored record missing a field, or holding a value of another type, is not modelled. Neither are the `??` and `||` fallbacks `toUserObject` applies to such records, other than name, plan and member-since date.
  - A JavaScript object's prototype keys (such as `constructor` in `keyMap`) are not modelled.
- `toLowerCase` is modelled on ASCII letters only. Other scripts' case mappings are not modelled.
- `sendVerificationCode` (a network call) is left out. It does not affect which code is accepted. The `sending` and `emailSent` display flags are left out too.
- The clock (`new Date()`, `Date.now()`, the one-month end date `handleCancelPlan` computes) is a parameter, and `formatDate` is left out.
- `Math.random()` is a parameter `r` in [0, 1), and `crypto.randomUUID` is a parameter, the fresh id.
- The legacy `netflix_users` object the change-email handler reads enters as its set of keys.
- Navigation, translations, the `maxLength` attributes and the browser's form validation are left out. The `maxLength` limit only restricts what can be typed.
- The pages outside the core are not part of this model: login, forgot and reset password, help, browse and landing.
- The `MyListContext` storage fallback is left out.
- Asynchrony is left out except for the disable dialog's password check, where the missing `await` is modelled. Every other handler runs to completion before the next event.
- TwoFactor.SendCode: sending is atomic in the model. In the app, the channel radios stay enabled while `sendVerificationCode` is awaited (src/components/TwoFAModal.jsx:36, 76, 82). Switching channel during that wait makes step 2 and the confirmation name a channel and contact the code was never sent to. The model does not cover that interleaving.
- SignupWizard.ValidatePassword: its contract bounds are stated in characters, which is weaker than the exact rule in UTF-16 code units. `PasswordRuleOnBmp` gives the exact rule for text without astral characters.

## Findings

| source | as written | input that shows it | evidently intended | confidence | as-written member | corrected member |
|---|---|---|---|---|---|---|
| src/context/AuthContext.jsx:120-143 | the guard tests the trimmed new email, but the raw untrimmed value is stored | "a@x" signed in and "b@x " stored; changing the email to "b@x " passes the guard, because "b@x" is not held, and stores a second "b@x " | store the trimmed email, as `signup` does, so stored emails stay unique | not executed | AuthStore.UntrimmedEmailBreaksUniqueness | AuthStore.UpdateUserKeepsEmailsUnique |
| src/context/AuthContext.jsx:120 | `if (updates.email)` skips the guard when the email is the empty string | "a@x" signed in and "" stored; changing the email to "" stores a second "" | check every email that is present | not executed | AuthStore.EmptyEmailSkipsGuard | AuthStore.UpdateUser |
| src/components/TwoFAModal.jsx:178 | `onVerifyPassword` is the `async` `verifyPassword`, so the test sees a promise, which is always truthy | password mode with the password "wrong": two-factor is turned off | await the verdict and refuse a wrong password | not executed | TwoFactor.AnyPasswordDisables | TwoFactor.DisableSubmit |
