# job-apply-ui: form validation and the mock job store, in Dafny

This project models the two parts of the job-apply-ui front end that contain logic:

- **The form-validation routine** (`app/utils/Utility.ts`). `validateFields` walks the form's field order and checks each field according to its format (label, type tag, required flag). It writes one error string per field into a copy of the error map that is currently shown, counts the failures, hands the map to the React setter `setErrorMessage`, and returns `count === 0`. `validateSignUpForm` also runs `validConfirmPassword`, but only when the field pass succeeds. The email check is an anchored regular expression. The phone check is an unanchored one. Both are written out as string predicates (`Patterns`). Each is proved equal to a reference definition: "there are positions where the parts of the pattern begin".
- **The mock job store and its status machine** (`app/welcome/welcome.tsx`). The module-level array `MOCK_JOB_DATA_STORE` becomes the `jobs` field of the class `Jobs.JobStore`. `mockAddJob` appends a job. `mockFetchJobs` returns a new array sorted newest first by a stable sort. The array is new, but its entries are the store's own job objects. `mockTriggerAutomation` is split into `TriggerAutomation`, which runs at once and marks the job `In Progress`, and `Resolve`, which is the timer firing and settles the job as `Submitted` or `Failed`. The checks that `handleAddJob` and `handleTriggerSubmission` make before they call the store are pure functions (`DecideAdd`, `OptimisticView`).

Outside effects are turned into parameters:
- `setErrorMessage` becomes the `published` output. It holds the maps handed to the setter, in call order.
- `crypto.randomUUID()` becomes the store's counter `nextId`.
- `new Date()` becomes a `Time` value supplied by the caller.
- `toLocaleTimeString()` becomes a `timeLabel` string.
- `Math.random() > 0.3` becomes the `success` argument of `Resolve`.

Files:
- `wrappers.dfy`: Option and Result.
- `text.dfy`: JavaScript's `trim`, `toLowerCase` and `includes`.
- `patterns.dfy`: the two regexes.
- `validation.dfy`: `Utility.ts`.
- `jobs.dfy`: `welcome.tsx`.

## Model

| member | source | states |
|---|---|---|
| `Text.Trim` | app/utils/Utility.ts:10 | `trim()` returns the slice of the text between its leading and trailing whitespace. It is empty exactly when every character is whitespace, and otherwise it starts and ends with a non-whitespace character. |
| `Text.TrimIdempotent` | app/welcome/welcome.tsx:175 | Trimming an already trimmed url changes nothing. |
| `Text.Includes` | app/welcome/welcome.tsx:168 | `includes(needle)` holds exactly when the needle occurs at some index. |
| `Text.LowerChar` | app/welcome/welcome.tsx:168 | A character lower-cases to the letter `x` from `a` to `z` exactly when it is `x` itself, its capital, or (for `k`) the Kelvin sign. It lower-cases to whitespace exactly when it is whitespace. |
| `Text.Lower` | app/welcome/welcome.tsx:168 | The result holds no capital `A`–`Z`, and each character is lower-cased on its own. |
| `Text.LowerIdempotent` | app/welcome/welcome.tsx:168 | Lower-casing twice gives the same text as lower-casing once. |
| `Text.IncludesSurvivesTrim` | app/welcome/welcome.tsx:165-175 | A needle without whitespace occurs in the lower-cased trimmed text exactly when it occurs in the lower-cased text. |
| `Patterns.ValidEmail` | app/utils/Utility.ts:61-64 | Every text `validEmail` accepts matches the anchored email pattern. The converse is `ValidEmailMatchesPattern`. |
| `Patterns.ValidEmailMatchesPattern` | app/utils/Utility.ts:61-64 | `validEmail` holds exactly when the whole text splits as local part, `@`, domain, `.`, and a top-level domain of at least two ASCII letters, with the regex's character classes. |
| `Patterns.EmailMatchIsAnchored` | app/utils/Utility.ts:62 | The email regex is anchored at both ends. Any text whose last character is not an ASCII letter fails, and so does any text whose first character is outside `[a-zA-Z0-9._%+-]`. |
| `Patterns.EmailExamples` | app/utils/Utility.ts:62 | `a@b.com` passes. |
| `Patterns.EmailCounterExample` | app/utils/Utility.ts:62 | `not-an-email` fails. |
| `Patterns.ValidPhoneNumber` | app/utils/Utility.ts:66-69 | Every text `validPhoneNumber` accepts contains one of the two phone forms somewhere. The converse is `ValidPhoneNumberMatchesPattern`. |
| `Patterns.PhoneFromMatches` | app/utils/Utility.ts:67-68 | The scan from position k succeeds exactly when `(ddd)ddd-dddd` or `+` plus 11 digits starts at some position at or after k. |
| `Patterns.ValidPhoneNumberMatchesPattern` | app/utils/Utility.ts:66-69 | `validPhoneNumber` holds exactly when either phone form occurs somewhere in the text. |
| `Patterns.PhoneMatchIsUnanchored` | app/utils/Utility.ts:67 | The phone check is a substring match: any text around a valid number still passes. |
| `Patterns.PhoneExamples` | app/utils/Utility.ts:67 | `(555)123-4567` passes, and so does `call +12345678901 now`. |
| `Patterns.PhoneCounterExample` | app/utils/Utility.ts:67 | `555-123-4567` fails. |
| `Validation.IsNotEmpty` | app/utils/Utility.ts:9-11 | `isNotEmpty` holds exactly when some character of the text is not whitespace. |
| `Validation.CheckField` | app/utils/Utility.ts:26-55 | A blank value gets `"<label> is required."` and one failure if the field is required, and `''` and none otherwise; type checks never run on blank values. A non-blank `email` value gets the email message and one failure iff it fails the email pattern. A non-blank `tel` value gets the phone message and one failure iff it fails the phone pattern. A non-blank `email \| tel` value gets the combined message iff it fails both, and is never counted. Any other tag gives `''`. |
| `Validation.CheckFieldInto` | app/utils/Utility.ts:25-56 | The `forEach` callback overwrites exactly the field's entry with the field's error and adds the field's failures to `count`. |
| `Validation.OverwriteFields` | app/utils/Utility.ts:24-56 | After the fields are checked, the map's keys are the old keys plus the checked fields. Every checked field holds its own error, and every other key keeps its old message. |
| `Validation.CheckAllFields` | app/utils/Utility.ts:23-56 | The `forEach` over the field order, started from a copy of the shown map and a zero count, ends with the map overwritten on every field of the order and the count equal to the sum of the fields' failures. |
| `Validation.ValidateFields` | app/utils/Utility.ts:22-59 | `setErrorMessage` is called exactly once, with the previous map overwritten on every field of the order. The result is true iff no field of the order fails. |
| `Validation.CountZeroIffNoFailure` | app/utils/Utility.ts:58 | `count === 0` holds iff no field in the order counts a failure. |
| `Validation.CountedMessageIsShown` | app/utils/Utility.ts:26-55 | A field counts a failure exactly when its message is neither `''` nor the uncounted email-or-phone message. |
| `Validation.VerdictMatchesShownErrors` | app/utils/Utility.ts:26-58 | The verdict is true iff every checked field shows `''` or the email-or-phone message. |
| `Validation.ConfirmPasswordErrors` | app/utils/Utility.ts:73-79 | The map adds the `confirmPassword` key to the base map and keeps every other entry. That entry is `'Passwords do not match.'` iff password and confirmation differ exactly, and `''` otherwise. |
| `Validation.ValidConfirmPassword` | app/utils/Utility.ts:71-82 | Publishes one map, built from the request's own `errorMessage`. Returns true iff the two values are identical; two missing values count as identical. |
| `Validation.ValidateLoginForm` | app/utils/Utility.ts:18-20 | Same verdict and same single publication as `validateFields`. |
| `Validation.ValidateSignUpForm` | app/utils/Utility.ts:13-16 | The verdict is "fields pass and passwords match". The password step runs, and publishes a second map built from the original error map, only when the fields pass. |
| `Validation.SignUpKeepsStaleErrors` | app/utils/Utility.ts:13-16 | A concrete request where the fields pass and the field map clears `userName`. The last published map still shows the earlier `"User Name is required."`. |
| `Validation.ValidateSignUpFormFixed` | app/utils/Utility.ts:13-16 | Same verdict. The last published map shows this submit's error for every checked field other than `confirmPassword`. |
| `Validation.BlankUserNameChecks` | app/components/login/LoginForm.tsx:7-18 | Under the login form's formats, a user name of `" "` gets `"User Name is required."` and one failure, and `"secret"` as password gets `''`. |
| `Validation.LoginBlankUserNameFails` | app/components/login/LoginForm.tsx:7-20 | Such a login submit fails validation. |
| `Validation.LoginBlankUserNameErrors` | app/components/login/LoginForm.tsx:7-20 | The published map shows the required message and clears the password's earlier message. |
| `Jobs.StatusClasses` | app/welcome/welcome.tsx:34-46 | `Submitted`, `Failed` and `In Progress` each get their own class string exactly when the status is that string. Every other string, `Pending` included, gets the gray classes. |
| `Jobs.StatusClassesTotal` | app/welcome/welcome.tsx:34-46 | The four statuses get four different class strings, and every other string gets the `Pending` classes. |
| `Jobs.NewJob` | app/welcome/welcome.tsx:81-87 | The added job copies the input's status, url, title and attempts. It has the given id, `createdAt == updatedAt == now`, and no log. |
| `Jobs.Started` | app/welcome/welcome.tsx:108-109 | The job becomes `In Progress` with `updatedAt` set to now. Id, url, title, attempts, log and `createdAt` are unchanged. |
| `Jobs.Finished` | app/welcome/welcome.tsx:117-120 | The job becomes `Submitted` iff success and `Failed` otherwise, with `updatedAt` set to now. Attempts go up by one and the log is the matching fixed text. Id, url, title and `createdAt` are unchanged. |
| `Jobs.TriggerThenResolve` | app/welcome/welcome.tsx:108-120 | Trigger then resolution leaves the job `Submitted` iff success and `Failed` otherwise. `attempts` is one higher, the log is the matching fixed text, and id, url, title and createdAt are unchanged. |
| `Jobs.Insert` | app/welcome/welcome.tsx:72 | Insertion keeps the list newest-first and adds exactly one copy of the job. |
| `Jobs.SortByNewest` | app/welcome/welcome.tsx:72 | The sort's result is a permutation of its input, ordered by `createdAt` non-increasing. |
| `Jobs.InsertKeepsTies` | app/welcome/welcome.tsx:72 | Insertion places the job before the other jobs created at the same time. |
| `Jobs.SortIsStable` | app/welcome/welcome.tsx:72 | For every time t, the jobs created at t appear in the listing in their store order. |
| `Jobs.NewestJobListedFirst` | app/welcome/welcome.tsx:68-90 | A job added strictly later than every stored job is listed first. |
| `Jobs.MarkInProgress` | app/welcome/welcome.tsx:208-210 | The update changes exactly the jobs with the given id, to `In Progress` at `now`. Every other job is unchanged and the length is kept. |
| `Jobs.InsertCommutesWithMark` | app/welcome/welcome.tsx:72 | Inserting and then marking gives the same list as marking and then inserting. |
| `Jobs.SortCommutesWithMark` | app/welcome/welcome.tsx:203-216 | Marking the sorted list gives the sorted list of the marked store. |
| `Jobs.ContainsWorkday` | app/welcome/welcome.tsx:168 | The url contains `workday` after lower-casing exactly when, at some position, its characters spell `workday` in either case. |
| `Jobs.DecideAdd` | app/welcome/welcome.tsx:165-179 | Whitespace-only input is ignored. A non-blank url whose lower-case form lacks `workday` is rejected with `"Please enter a valid Workday URL."`. Otherwise the input is the trimmed url with status `Pending`, 0 attempts and the listing title. |
| `Jobs.WorkdaySurvivesTrim` | app/welcome/welcome.tsx:168-175 | The lower-cased trimmed url contains `workday` iff the lower-cased url does. |
| `Jobs.AcceptedUrlIsSettled` | app/welcome/welcome.tsx:165-179 | The url of an accepted input passes the same checks again, with the same result. |
| `Jobs.AcceptedExample` | app/welcome/welcome.tsx:165-179 | `" x.MyWorkday.com"` is accepted as `"x.MyWorkday.com"`, so the check ignores case. |
| `Jobs.RejectedExample` | app/welcome/welcome.tsx:168-171 | `"https://example.com/1"` is rejected with the Workday message. |
| `Jobs.IgnoredExample` | app/welcome/welcome.tsx:165 | Blank input is ignored. |
| `Jobs.OptimisticView` | app/welcome/welcome.tsx:203-210 | For a job already `In Progress`, the list is unchanged. Otherwise each entry with that id becomes the entry marked `In Progress` at `now`, with every other field kept (`...j`). Entries with other ids are unchanged. |
| `Jobs.FindJob` | app/welcome/welcome.tsx:105 | `find` returns the first index holding the id, or nothing iff no job has it. |
| `Jobs.JobStore.constructor` | app/welcome/welcome.tsx:7 | The store starts empty, with no timer pending. |
| `Jobs.JobStore.AddJob` | app/welcome/welcome.tsx:81-96 | Appends exactly the new job and keeps earlier entries. The new id is used by no earlier job, and the id counter moves on by one. Pending timers are untouched. Answers `"Job added successfully"`. |
| `Jobs.JobStore.Listing` | app/welcome/welcome.tsx:68-75 | Returns a newest-first permutation of the store that keeps store order among equal timestamps. The store is not reordered. |
| `Jobs.JobStore.TriggerAutomation` | app/welcome/welcome.tsx:103-109 | The answer is success exactly when some stored job has the id, and `"Job not found on server."` otherwise. An unknown id leaves the store unchanged. A known id marks only that job `In Progress` at `now` and sets exactly one more timer for it. |
| `Jobs.JobStore.Resolve` | app/welcome/welcome.tsx:112-124 | It fires one pending timer, so it needs an earlier successful trigger of that id, and that timer is gone afterwards. Only the job with that id changes: status from `success`, `updatedAt`, attempts plus 1, and the fixed log text. The answer names the new status. |
| `Jobs.JobStore.HandleAddJob` | app/welcome/welcome.tsx:164-186 | The store grows by the new job exactly when the input is accepted, and the id counter moves on only then. Otherwise the store is unchanged. |
| `Jobs.JobStore.HandleTriggerSubmission` | app/welcome/welcome.tsx:201-213 | A job shown `In Progress` changes nothing. Otherwise the list on screen is updated optimistically at the updater's time. The store is triggered at its own time, and the answer is success iff the store holds the id, and `"Job not found on server."` otherwise. Only a success sets a timer. If the screen showed the store's listing, the next listing is the optimistic update taken at the store's time. It equals the list on screen only when the two clock reads agree. |

## Left out

- React rendering, hooks and JSX are not modelled. This covers the `jobUrl`, `jobs`, `loading` and `error` state, `getStatusIcon`, and the other components. They hold no logic beyond what is modelled.
- The timers are dropped. These are the 300 ms and 500 ms delays, the 3–5 s resolution delay and the 5 s polling interval. The model keeps what happens, not when.
- `Math.random` is not modelled. The 70 % outcome is the boolean `success` argument, and the delay is dropped.
- `crypto.randomUUID` is replaced by a counter, `new Date()` by a caller-supplied integer time, and `toLocaleTimeString` by a `timeLabel` argument. These are foreign calls.
- What `handleTriggerSubmission` does after awaiting the store is left out. That is the refresh by `fetchJobs`, and on rejection the UI message ``Submission failed for job ${job.id}`` followed by a refresh. It is screen state, not store logic. The catch branch of `handleAddJob` is left out as well, because `mockAddJob` never rejects.
- The `pattern`, `minLength`, `maxLength`, `validate` and `customValidationMessage` fields of `FieldFormat` are left out. The routine never reads them.
- Validation.ValidateFields: it requires every field of the order to have a format and a value. In the source, a missing format, or a missing value that reaches `trim()`, throws a `TypeError`. The model does not represent that exception. The requirement also excludes one input that does not throw: a missing value of a field that is not required and whose type tag is not `email`, `tel` or `email | tel`. The source never calls `trim()` on it and gives it `''` with no failure, the same as for an empty value.
- Validation.CheckAllFields: it has the same requirement as `Validation.ValidateFields`, for the same reason.
- Validation.IsNotEmpty: the `text !== null` guard is not modelled, because values are typed as strings.
- Text.Lower: only `A`–`Z` and the Kelvin sign U+212A (which becomes `k`) are lower-cased. No other character lower-cases to a letter of `workday`, so `ContainsWorkday` gives the same answer as `toLowerCase().includes('workday')`. The model always keeps the length, but JavaScript's `toLowerCase` does not: U+0130 (capital I with dot) becomes two code points. Positions in the lower-cased text can therefore shift, but an occurrence of `workday` is still found or missed in the same way.
- Characters are Unicode scalar values. Lone UTF-16 surrogates are not modelled.
- Jobs.JobStore.Resolve: the timers are a multiset of job ids, `pending`. A successful `TriggerAutomation` adds one copy of the id, and `Resolve` requires a copy and removes it, so every resolution follows a trigger of its own. The order in which timers fire (3 to 5 seconds, drawn at random) is not modelled: any pending timer may fire next. The source does not stop a second trigger while one is in flight; the only check is the status shown on screen in `handleTriggerSubmission`. So the model, like the source, allows two timers for one job.
- The rules are keyed on the type tag, as in the code. The error map is not rebuilt from scratch: it is a copy of the previous map, so keys outside the field order keep their messages.
- Jobs.JobStore.Listing: it returns values, so aliasing is not modelled. In the source, the spread copies only the array, although the comment beside it calls the result a deep copy. The job objects on screen are the store's own objects, so the store's in-place writes when a job is triggered and when it resolves also show in a listing already on screen, without a new fetch.
- Each operation reads the clock once. `mockAddJob` calls `new Date()` twice, for `createdAt` and `updatedAt`, and the model takes both from one `now`. `handleTriggerSubmission` is the exception: its two clock reads are separate parameters.
- A newly added job is listed first only when its timestamp is strictly later than every stored one (`Jobs.NewestJobListedFirst`). With equal timestamps, the stable sort lists it after older entries.
- `app/routes.ts`, `app/state/UseLogin.tsx`, the alert-based `SignUpForm.tsx` and the navigation components are not part of this model.

## Findings

| source | as written | input that shows it | evidently intended | confidence | as-written member | corrected member |
|---|---|---|---|---|---|---|
| app/utils/Utility.ts:13-16 | `validConfirmPassword` copies `request.errorMessage`, the map shown before this submit. It publishes after `validateFields`, so React keeps its map and drops the one `validateFields` just built. | Shown errors `{userName: "User Name is required."}`, then a submit with `userName = "ada"` and equal passwords. The fields pass, yet the final map still shows the required message. | The password step should start from the map `validateFields` produced, so that every field shows this submit's verdict. | medium; not executed | `Validation.SignUpKeepsStaleErrors` | `Validation.ValidateSignUpFormFixed` |
