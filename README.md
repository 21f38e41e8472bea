# Hospital reception front-end: a Dafny model of its page logic

The repository is a React front-end for a hospital's reception desk. Its pages keep
mock data in component state, and this project models the logic those pages run on
that state:

- **Sign-up form** (`Signup`). The mobile-number keystroke filter keeps the field
  digits-only, at most ten long and starting with 7, 8 or 9. Editing a field clears
  that field's error. `validateForm` builds one message per failing field: required
  fields, the unanchored `\S+@\S+\.\S+` email pattern, a six-character password,
  password confirmation, and the mobile length and prefix. The handler, the validator
  and the submit step are methods of the class `SignupForm`. The checks are pure
  predicates and functions.
- **Appointments page** (`Appointments`). The class `AppointmentsPage` holds the
  appointment list, the form and the form's visibility. Submitting appends a
  "Pending" appointment numbered `length + 1`. A confirmed cancel drops every
  appointment with the given id. The status counts are taken over the whole list.
- **Patients page** (`Patients`). The class `PatientsPage` holds the register, which
  starts empty, plus the form, its visibility and the search term. Registering stamps
  the day part of the current ISO timestamp as the join date. The search covers name,
  phone and email. The gender counts are taken over the whole register.
- **Doctors page** (`Doctors`, pure). The department drop-down is derived with
  `new Set`. The search is combined with the department filter. The page also computes
  each card's avatar letter and status class, and the summary counts.
- **Services page** (`Services`, pure). A fixed catalogue of twelve services, its
  search, and the total and available counts.

Two shared modules model the JavaScript built-ins the pages use:

- `Strings`: `toLowerCase`, `includes`, `trim`, `split`, `replace` and the `/\D/g`
  filter.
- `Lists`: `filter`, `filter(...).length` and `[...new Set(xs)]`. It also holds the
  generic facts about length-based ids.

`Options` holds the optional-value type.

The model keeps these behaviours of the code:

- Toggling a form closed (Appointments, Patients) only flips the visibility flag. The
  draft is kept and shows again when the form is reopened. It is reset only by a
  submit.
- The patient search compares the phone with the term exactly as typed. Only the name
  and email comparisons ignore case, so the search as a whole is case-sensitive
  (`Patients.PhoneSearchIsCaseSensitive`).
- The patient register starts empty, because the sample records in the source are
  commented out.
- Ids are `length + 1`. While the ids are still 1..n, a create keeps them distinct
  (`Appointments.CreateKeepsPositions`). But from ids 1..n, a cancel or delete of any
  record except the last makes the next new record repeat an existing id. The model
  keeps this behaviour and proves it (`Appointments.IdCollision`).

## Model

| member | source | states |
|---|---|---|
| Strings.Digits | src/Webpages/Signup.js:25 | the `/\D/g` strip keeps only digits, as a subsequence of the input, and every digit value of the input appears in it |
| Strings.DigitsKeepCopies | src/Webpages/Signup.js:25 | the strip keeps every copy of each digit and no copy of any other character |
| Strings.DigitsOfDigits | src/Webpages/Signup.js:25 | an all-digit value passes the strip unchanged |
| Strings.Lower | src/Webpages/Doctors.js:31-33 | `toLowerCase` keeps the length and lower-cases each character in place, only ASCII letters changing; lower-casing twice is lower-casing once (`Strings.LowerIdempotent`) |
| Strings.LowerIdempotent | src/Webpages/Doctors.js:31-33 | lower-casing twice is lower-casing once |
| Strings.Contains | src/Webpages/Patients.js:74 | `includes`: the term occurs as a contiguous run at some index; every text includes the empty term (`Strings.EmptyTermMatches`), and a one-character term is included only where that character appears (`Strings.AbsentChar`) |
| Strings.Trim | src/Webpages/Signup.js:49 | `trim` as the end trim of the start trim; only leading and trailing whitespace is dropped (`Strings.TrimStartShape`, `Strings.TrimEndShape`), and the result is empty exactly for an all-whitespace string (`Strings.TrimEmptyIff`) |
| Strings.TrimStartShape | src/Webpages/Signup.js:49 | the start trim keeps a suffix that is empty or starts with a non-whitespace character, and drops only whitespace |
| Strings.TrimEndShape | src/Webpages/Signup.js:49 | the end trim keeps a prefix that is empty or ends with a non-whitespace character, and drops only whitespace |
| Strings.TrimEmptyIff | src/Webpages/Signup.js:49 | `s.trim()` is empty exactly when every character of `s` is ECMAScript whitespace |
| Strings.AbsentChar | src/Webpages/Patients.js:74 | a text in which a character never appears does not include that one-character term |
| Strings.EmptyTermMatches | src/Webpages/Patients.js:73 | every text includes the lower-cased empty term |
| Strings.ContainsIgnoringCaseInsensitive | src/Webpages/Doctors.js:31-33 | the lower-cased `includes` test gives the same answer when either side is lower-cased first |
| Strings.Split | src/Webpages/Doctors.js:76 | `split(" ")` yields at least one piece and no piece contains the separator |
| Strings.IndexOfAt | src/Webpages/Doctors.js:76 | helper of the `split` model: the first separator is at a position when no earlier position holds it |
| Strings.JoinCons | src/Webpages/Doctors.js:76 | helper of the `split` round trips: joining a piece in front of further pieces puts one separator after it |
| Strings.JoinSplit | src/Webpages/Doctors.js:76 | joining the pieces of a split with the separator gives back the string |
| Strings.SplitJoin | src/Webpages/Doctors.js:76 | splitting a join of separator-free pieces gives back the pieces |
| Strings.ReplaceFirst | src/Webpages/Doctors.js:82 | `replace(" ", "-")` keeps the length, changes only the first occurrence, and changes nothing when there is none |
| Lists.FilterBy | src/Webpages/Appointments.js:61 | `filter` never returns more elements than it was given |
| Lists.FilterShape | src/Webpages/Appointments.js:61 | `filter` returns an order-preserving subsequence holding exactly the element values that satisfy the predicate |
| Lists.FilterMultiplicity | src/Webpages/Appointments.js:61 | `filter` keeps every copy of each value that satisfies the predicate and no copy of any other |
| Lists.CountBy | src/Webpages/Appointments.js:184 | `filter(...).length` is at most the length of the list |
| Lists.FilterConcat | src/Webpages/Appointments.js:46 | filtering a list with an appended record is filtering the list, then the record |
| Lists.FilterDropsOne | src/Webpages/Appointments.js:61 | filtering out exactly one position removes that element and keeps the rest in order |
| Lists.CountPartition3 | src/Webpages/Appointments.js:180-191 | counts under three exclusive predicates plus the rest make up the total, and the three make it up alone when they cover every element |
| Lists.CountPartition2 | src/Webpages/Patients.js:95-101 | the same for two exclusive predicates; and the two fall short of the total when some element meets neither |
| Lists.PositionIdsDistinct | src/Webpages/Appointments.js:42 | ids equal to 1-based positions are pairwise distinct |
| Lists.LengthIdCollision | src/Webpages/Appointments.js:42 | with position ids, removing id `k` (not the last) and appending id `length + 1` leaves two records with id equal to the old length |
| Lists.Distinct | src/Webpages/Doctors.js:26 | `[...new Set(xs)]` has no duplicates and holds exactly the values of `xs` |
| Lists.DistinctFirstOccurrenceOrder | src/Webpages/Doctors.js:26 | the set's values come in the order of their first occurrence |
| Lists.DistinctCount | src/Webpages/Doctors.js:129 | the length of `[...new Set(xs)]` is the number of distinct values |
| Lists.DistinctOfNoDuplicates | src/Webpages/Doctors.js:26 | a duplicate-free list is unchanged by the set conversion |
| Signup.FormData.With | src/Webpages/Signup.js:37 | `{ ...formData, [name]: value }` sets that field and leaves the other five |
| Signup.HasMobilePrefix | src/Webpages/Signup.js:28 | `/^[789]/.test`: the first character is 7, 8 or 9; both the keystroke filter and the mobile check use it |
| Signup.FilterMobileInput | src/Webpages/Signup.js:24-35 | an accepted mobile keystroke stores exactly the digit string, which is empty or at most ten digits starting with 7, 8 or 9 |
| Signup.FilterMobileRejects | src/Webpages/Signup.js:28-33 | a keystroke is rejected exactly when its digits are non-empty without a leading 7, 8 or 9, or more than ten |
| Signup.FilterMobileKeepsValid | src/Webpages/Signup.js:24-35 | a value the field may hold is accepted unchanged when entered again |
| Signup.FilterMobileAccepts | src/Webpages/Signup.js:24-35 | "9123456789" is accepted as is |
| Signup.FilterMobileStops | src/Webpages/Signup.js:28-30 | "6123456789" is rejected, because it does not start with 7, 8 or 9 |
| Signup.MatchesEmailPattern | src/Webpages/Signup.js:55 | `/\S+@\S+\.\S+/.test` as a scan over the positions of the `@` and the `.`; `Signup.EmailPatternIff` states what it decides |
| Signup.EmailMatchWithDotIff | src/Webpages/Signup.js:55 | the scan for the `.` after a given `@` succeeds exactly when such a match of `\S+@\S+\.\S+` exists |
| Signup.EmailMatchFromIff | src/Webpages/Signup.js:55 | the scan over the positions of the `@` succeeds exactly when a match exists with its `@` at or after the starting position |
| Signup.EmailPatternIff | src/Webpages/Signup.js:55 | the pattern test succeeds exactly when some `@` and later `.` delimit non-empty whitespace-free runs before, between and after them |
| Signup.ClearError | src/Webpages/Signup.js:40-42 | after an edit, the edited field's existing message becomes "" and every other entry is unchanged, with no entry added |
| Signup.SignupForm.HandleChange | src/Webpages/Signup.js:20-43 | a rejected mobile keystroke changes neither the form nor the errors; otherwise the field is set (to its digit string for the mobile) and its error cleared; the mobile invariant is preserved |
| Signup.CheckFullName | src/Webpages/Signup.js:49-51 | the full-name message is recorded exactly when the trimmed name is empty |
| Signup.CheckEmail | src/Webpages/Signup.js:53-57 | "required" for a blank email, "invalid" for a non-blank one without the pattern, nothing otherwise |
| Signup.CheckUsername | src/Webpages/Signup.js:59-61 | the username message is recorded exactly when the trimmed username is empty |
| Signup.CheckPassword | src/Webpages/Signup.js:63-67 | "required" for an empty password, "too short" below six characters, nothing otherwise |
| Signup.CheckConfirmPassword | src/Webpages/Signup.js:69-71 | the mismatch message is recorded exactly when the two passwords differ |
| Signup.CheckMobileNumber | src/Webpages/Signup.js:73-80 | required, then length, then prefix: the first failing mobile check alone gives the message |
| Signup.RequiredError | src/Webpages/Signup.js:49-51 | the required-field check gives its message exactly for a blank value (stated by `Signup.FieldErrorNoneIff`) |
| Signup.EmailError | src/Webpages/Signup.js:53-57 | "required" for a blank email, else "invalid" without the pattern (stated by `Signup.EmailChecks` and `Signup.FieldErrorNoneIff`) |
| Signup.PasswordError | src/Webpages/Signup.js:63-67 | "required" for an empty password, else "too short" below six characters (stated by `Signup.PasswordChecksIndependent`) |
| Signup.ConfirmPasswordError | src/Webpages/Signup.js:69-71 | the mismatch message exactly when the entries differ (stated by `Signup.FieldErrorNoneIff`) |
| Signup.MobileNumberError | src/Webpages/Signup.js:73-80 | required, then length, then prefix (stated by `Signup.FilteredMobileNeverWrongPrefix` and `Signup.FieldErrorNoneIff`) |
| Signup.FieldError | src/Webpages/Signup.js:49-80 | the message of each field's check, dispatched by field; `Signup.FieldErrorNoneIff` gives when there is none |
| Signup.ErrorMap | src/Webpages/Signup.js:47-80 | the error object holds a key exactly for the fields with a message, mapped to that message |
| Signup.ErrorsFor | src/Webpages/Signup.js:46-80 | the validator's error map has one entry per failing field, holding that field's message |
| Signup.ErrorsInFieldOrder | src/Webpages/Signup.js:47-80 | recording the six checks one after another in the form's order builds exactly that map |
| Signup.EmptyIffNoField | src/Webpages/Signup.js:83 | an error object is empty exactly when none of the six fields is a key |
| Signup.NoKeysIffEmpty | src/Webpages/Signup.js:83 | `Object.keys(errors).length === 0` holds exactly for the empty error object |
| Signup.FieldErrorNoneIff | src/Webpages/Signup.js:49-80 | a field draws no message exactly when its check passes |
| Signup.ErrorsEmptyIffNoMessage | src/Webpages/Signup.js:46-83 | the validator's map is empty exactly when none of the six checks gives a message |
| Signup.AcceptableIffNoMessage | src/Webpages/Signup.js:46-83 | all six checks pass exactly when none of them gives a message |
| Signup.ErrorsEmptyIff | src/Webpages/Signup.js:46-83 | the map is empty exactly when the name and username are non-blank, the email is non-blank and matches, the password has six or more characters and equals the confirmation, and the mobile has ten characters starting with 7, 8 or 9 |
| Signup.SignupForm.ValidateForm | src/Webpages/Signup.js:46-84 | replaces the errors by that map and returns true exactly when it is empty, that is, when the form is acceptable |
| Signup.SignupForm.HandleSubmit | src/Webpages/Signup.js:87-94 | validates, and asks to go home exactly when the form is acceptable |
| Signup.PasswordChecksIndependent | src/Webpages/Signup.js:63-71 | "abc12" is too short and "abc123" is not; a mismatch with the confirmation is reported whatever the password's length |
| Signup.FilteredMobileNeverWrongPrefix | src/Webpages/Signup.js:73-80 | a mobile value the keystroke filter let through never draws the prefix message, and draws the length message only when it has 1 to 9 digits |
| Signup.EmailChecks | src/Webpages/Signup.js:53-57 | the format message appears only for a non-blank email; a blank email always draws the "required" message |
| Signup.EmailExampleAccepted | src/Webpages/Signup.js:53-57 | the unanchored pattern accepts "john doe@mail.com", so that email draws no message |
| Signup.EmailExampleRejected | src/Webpages/Signup.js:53-57 | "a@b" is non-blank but has no `.` after the `@`, so it draws the format message |
| Signup.SignupForm.constructor | src/Webpages/Signup.js:6-15 | the form starts with six empty fields and no errors |
| Appointments.Draft.With | src/Webpages/Appointments.js:30-35 | after an edit the named field reads the new value and every other field reads as before |
| Appointments.DraftsAgree | src/Webpages/Appointments.js:30-35 | two drafts with the same value in every field are the same draft |
| Appointments.WithOwnValue | src/Webpages/Appointments.js:30-35 | writing a field's own value back leaves the form unchanged |
| Appointments.Create | src/Webpages/Appointments.js:41-46 | submit appends one appointment at the end, numbered old length + 1, status "Pending", other fields from the form; earlier appointments unchanged and in order |
| Appointments.Remove | src/Webpages/Appointments.js:61 | a cancel keeps, in order, exactly the appointments whose id differs |
| Appointments.RemoveKeepsCopies | src/Webpages/Appointments.js:61 | a cancel keeps every copy of each appointment with another id and none with that id |
| Appointments.RemoveAbsent | src/Webpages/Appointments.js:59-62 | cancelling an id nobody has leaves the list as it was |
| Appointments.CreateKeepsPositions | src/Webpages/Appointments.js:41-46 | while the ids are 1..n, a create keeps them 1..n+1, so all ids stay distinct |
| Appointments.IdCollision | src/Webpages/Appointments.js:41-62 | with ids 1..n, cancelling id `k < n` and creating one gives two appointments numbered n |
| Appointments.SeedIdCollision | src/Webpages/Appointments.js:10-15 | on the starting list, cancelling #2 and creating one yields two appointments numbered 4 |
| Appointments.StatusCount | src/Webpages/Appointments.js:180-191 | a status count is at most the total |
| Appointments.SummaryBound | src/Webpages/Appointments.js:176-191 | Confirmed + Pending + Cancelled never exceeds the total, and equals it when every status is one of the three |
| Appointments.CreateCounts | src/Webpages/Appointments.js:41-46 | submit raises the Pending count by one and leaves the other counts |
| Appointments.AppointmentsPage.constructor | src/Webpages/Appointments.js:10-26 | the page starts with the four sample appointments, the form hidden and empty with type "General" |
| Appointments.AppointmentsPage.HandleChange | src/Webpages/Appointments.js:30-35 | sets the named form field |
| Appointments.AppointmentsPage.HandleSubmit | src/Webpages/Appointments.js:38-56 | the list becomes `Create` of the old list and form; the form is reset with type "General" and hidden; statuses stay countable |
| Appointments.AppointmentsPage.HandleDelete | src/Webpages/Appointments.js:59-63 | confirmed: the list becomes `Remove` of the id; declined: unchanged |
| Appointments.AppointmentsPage.ToggleForm | src/Webpages/Appointments.js:70 | the form's visibility becomes its negation |
| Patients.Draft.With | src/Webpages/Patients.js:34-39 | after an edit the named field reads the new value and every other field reads as before |
| Patients.DraftsAgree | src/Webpages/Patients.js:34-39 | two drafts with the same value in every field are the same draft |
| Patients.WithOwnValue | src/Webpages/Patients.js:34-39 | writing a field's own value back leaves the form unchanged |
| Patients.DatePart | src/Webpages/Patients.js:48 | `split("T")[0]` of the timestamp; for a timestamp `<date>T<rest>` it is `<date>` (`Patients.DatePartOfIso`) |
| Patients.DatePartOfIso | src/Webpages/Patients.js:48 | the join date of an ISO timestamp `<date>T<rest>` is `<date>` |
| Patients.Create | src/Webpages/Patients.js:45-50 | submit appends one record, numbered old length + 1, with the form's fields and the day part of the timestamp; earlier records unchanged |
| Patients.Remove | src/Webpages/Patients.js:66 | a delete keeps, in order, exactly the records whose id differs |
| Patients.CreateKeepsPositions | src/Webpages/Patients.js:45-50 | while the ids are 1..n, a registration keeps them 1..n+1, so all ids stay distinct |
| Patients.RemoveKeepsCopies | src/Webpages/Patients.js:66 | a delete keeps every copy of each record with another id and none with that id |
| Patients.RemoveAbsent | src/Webpages/Patients.js:64-68 | deleting an id nobody has leaves the register as it was |
| Patients.Matches | src/Webpages/Patients.js:72-75 | the three-way search test: name or email including the term ignoring case, or phone including it as typed; a phone match keeps the term's case, so "B" can find a record that "b" does not (`Patients.PhoneSearchIsCaseSensitive`) |
| Patients.FilteredPatients | src/Webpages/Patients.js:71-76 | the results are an order-preserving subsequence holding exactly the records whose name or email includes the term ignoring case, or whose phone includes it as typed |
| Patients.SearchKeepsCopies | src/Webpages/Patients.js:71-76 | the search keeps every copy of each matching record and no copy of any other |
| Patients.EmptySearchShowsAll | src/Webpages/Patients.js:71-76 | the empty search shows the whole register |
| Patients.PhoneSearchIsCaseSensitive | src/Webpages/Patients.js:74 | a record found by "B" through its phone is not found by "b" |
| Patients.GenderCount | src/Webpages/Patients.js:95-101 | a gender count is at most the total |
| Patients.GenderSummary | src/Webpages/Patients.js:91-101 | Male + Female never exceeds the total, equals it when everyone is Male or Female, and falls short when anyone has another gender |
| Patients.CreateCounts | src/Webpages/Patients.js:45-50 | registering raises the count of the form's gender by one and leaves the other |
| Patients.PatientsPage.constructor | src/Webpages/Patients.js:10-30 | the register starts empty, the form hidden and empty with gender "Male", the search empty |
| Patients.PatientsPage.HandleChange | src/Webpages/Patients.js:34-39 | sets the named form field |
| Patients.PatientsPage.HandleSubmit | src/Webpages/Patients.js:42-61 | the register becomes `Create` of the old register, form and timestamp; the form is reset with gender "Male" and hidden |
| Patients.PatientsPage.HandleDelete | src/Webpages/Patients.js:64-68 | confirmed: the register becomes `Remove` of the id; declined: unchanged |
| Patients.PatientsPage.ToggleForm | src/Webpages/Patients.js:83 | the form's visibility becomes its negation; the draft is kept |
| Patients.PatientsPage.SetSearchTerm | src/Webpages/Patients.js:116 | the search term becomes the typed text |
| Doctors.DepartmentNames | src/Webpages/Doctors.js:26 | the mapped list holds each doctor's department, position by position |
| Doctors.Departments | src/Webpages/Doctors.js:26 | the drop-down is "All" followed by each doctor's department once, with nothing else |
| Doctors.DepartmentsInFirstOccurrenceOrder | src/Webpages/Doctors.js:26 | the departments come in the order of their first appearance among the doctors |
| Doctors.DepartmentSummary | src/Webpages/Doctors.js:127-130 | `departments.length - 1` is the number of distinct departments |
| Doctors.MatchesSearch | src/Webpages/Doctors.js:30-33 | name, specialization or department includes the term, ignoring case; the shown doctors do not depend on the case of the term (`Doctors.SearchIgnoresTermCase`) |
| Doctors.MatchesDepartment | src/Webpages/Doctors.js:34 | the filter is "All" or equals the department exactly; a filter other than "All" that no department equals exactly shows nobody (`Doctors.FilterIsExact`) |
| Doctors.FilteredDoctors | src/Webpages/Doctors.js:29-36 | the shown doctors are an order-preserving subsequence holding exactly those that match the search (name, specialization or department, ignoring case) and the filter ("All" or the exact department) |
| Doctors.SearchKeepsCopies | src/Webpages/Doctors.js:29-36 | the page keeps every copy of each doctor matching the search and the filter, and no copy of any other |
| Doctors.DefaultViewShowsAll | src/Webpages/Doctors.js:29-36 | no term with "All" shows every doctor in order |
| Doctors.SearchIgnoresTermCase | src/Webpages/Doctors.js:30-33 | the shown doctors do not depend on the case of the term |
| Doctors.FilterIsExact | src/Webpages/Doctors.js:34 | a filter other than "All" that no department equals exactly shows nobody |
| Doctors.AvatarInitial | src/Webpages/Doctors.js:76 | the avatar is always one character |
| Doctors.AvatarInitialAfterFirstSpace | src/Webpages/Doctors.js:76 | the avatar is the character after the first space when it exists and is not a space, and "D" otherwise |
| Doctors.AvatarOfFullName | src/Webpages/Doctors.js:76 | "Dr. John Smith" gives "J" |
| Doctors.AvatarOfSingleWord | src/Webpages/Doctors.js:76 | "Smith" has no second word and gives "D" |
| Doctors.AvatarAfterDoubleSpace | src/Webpages/Doctors.js:76 | "Dr.  Smith" has an empty second word and gives "D" |
| Doctors.StatusClass | src/Webpages/Doctors.js:82 | `status.toLowerCase().replace(" ", "-")`; the result is the status lower-cased in place with its first space turned into "-" (`Doctors.StatusClassShape`) |
| Doctors.StatusClassShape | src/Webpages/Doctors.js:82 | the status class has the status's length and no upper-case letter; its first space becomes "-" and every other character is lower-cased in place |
| Doctors.StatusClassOnLeave | src/Webpages/Doctors.js:82 | "On Leave" gives "on-leave" |
| Doctors.StatusClassAvailable | src/Webpages/Doctors.js:82 | "Available" gives "available" |
| Doctors.StatusCount | src/Webpages/Doctors.js:119-126 | a status count is at most the total |
| Doctors.SeedStatuses | src/Webpages/Doctors.js:10-17 | the page lists six doctors, the third on leave and every other one available |
| Doctors.SeedSummary | src/Webpages/Doctors.js:10-126 | on the listed doctors the summary shows 6 in total, 5 available today and 1 on leave |
| Doctors.StatusSummary | src/Webpages/Doctors.js:115-126 | Available + On Leave never exceeds Total Doctors, and equals it when every status is one of the two |
| Services.Matches | src/Webpages/Services.js:130-132 | name or description includes the term, ignoring case; the shown services do not depend on the case of the term (`Services.SearchIgnoresTermCase`) |
| Services.FilteredServices | src/Webpages/Services.js:129-133 | the shown services are an order-preserving subsequence holding exactly those whose name or description includes the term, ignoring case |
| Services.SearchKeepsCopies | src/Webpages/Services.js:129-133 | the search keeps every copy of each matching service and no copy of any other |
| Services.EmptySearchShowsAll | src/Webpages/Services.js:129-133 | the empty search shows every service |
| Services.SearchIgnoresTermCase | src/Webpages/Services.js:129-133 | the shown services do not depend on the case of the term |
| Services.AvailableCount | src/Webpages/Services.js:189-192 | "Available Now" is at most "Total Services" |
| Services.AvailableCountIsTotalIff | src/Webpages/Services.js:185-192 | the available count equals the total exactly when every service is available |
| Services.AvailableBelowTotal | src/Webpages/Services.js:189-192 | one unavailable service keeps the available count below the total |
| Services.FullCounts | src/Webpages/Services.js:185-192 | with every service available, both the available count and the empty search reach the total |
| Services.CatalogueContents | src/Webpages/Services.js:10-119 | the catalogue holds twelve services, every one available |
| Services.CatalogueSummary | src/Webpages/Services.js:10-133 | on the catalogue, Total and Available Now are both 12, and the empty search shows all 12 |

## Left out

- Rendering: JSX, CSS classes, page chrome. The headers, tables and cards only display the modelled state. The only exception is the doctors' status-class string rule, which is modelled.
- Routing: the route table, the dashboard's navigation and logout, the home page's login, and the sign-up page's `navigate("/")`. `Signup.SignupForm.HandleSubmit` returns a flag instead of navigating.
- The `console.log` of the sign-up data, which is output only.
- `window.confirm`: each page's delete takes the user's answer as a boolean parameter.
- The clock: registration takes the ISO timestamp as a parameter, and "New This Week" (src/Webpages/Patients.js:105) is not modelled, because it depends on the current time.
- Unicode: `toLowerCase` maps only the ASCII letters. Lengths and `charAt` count code points; the source counts UTF-16 code units, which differ only outside the Basic Multilingual Plane.
- Service icons: each is a display-only emoji, so the catalogue records omit them.
- Unused state: the services page's `categoryFilter`, and the doctors page's `setDoctors`, which the page never calls.
- The browser's own input checks, which act before the handlers run and which the model's handlers do not enforce:
  - `type="email"` on the sign-up form (src/Webpages/Signup.js:131) and on the patient form (src/Webpages/Patients.js:162);
  - `maxLength={10}` on the sign-up mobile field (src/Webpages/Signup.js:158);
  - `required` on the appointment form's patient, doctor, date and time (src/Webpages/Appointments.js:88, 96, 105, 112);
  - `required` on the patient form's name, age, phone and email (src/Webpages/Patients.js:134, 142, 157, 167).

  So the browser would refuse to submit "john doe@mail.com", which `Signup.EmailExampleAccepted` shows `validateForm` accepts. It would also refuse a draft with a blank field, while `Appointments.AppointmentsPage.HandleSubmit` and `Patients.PatientsPage.HandleSubmit` create a record from any draft.
- Form fields outside the page's own set: `handleChange` spreads `e.target.name` into the form object. The model restricts the name to the fields the form renders.
- Reports, Laboratory, DashboardHome, HomePages and ReceptionistDashboard are not part of this model. They hold constant mock statistics, a list that is never filled, pop-ups and navigation.
- Appointments.StatusCount, Patients.GenderCount, Doctors.StatusCount and Services.AvailableCount: their own contracts state only the bound by the total. The relations between the counts are stated in the summary lemmas beside them.
