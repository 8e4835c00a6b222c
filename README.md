# Research-study web flow: verified model of the page logic

The study app is one browser script, `app.js`. It runs a five-page flow:
sign-up, pre-directions, video, survey and learning hub. Most of the script
is DOM wiring. This project models the decision rules inside it and proves
what they promise:

- **Password-strength meter.** Five independent checks are counted into a
  score from 0 to 5, and the score is bucketed into Weak / Medium / Strong.
- **Sign-up validators.** Name, e-mail and password are checked in order.
  The e-mail rule is the regular expression `^[^\s@]+@[^\s@]+\.[^\s@]+$`.
  The submit handler runs all three validators and stores the trimmed name
  and e-mail address.
- **Watch-completion gate.** A flag on the video page is set by progress
  samples (15 s, or half of a known duration) and by the end of playback.
  It is never cleared, and Continue works only once it is set.
- **Progress persistence.** Every page load reads the last page key, may
  show one "resume" banner, and records the current page.
- **Survey submission.** An answer needs a trimmed length of at least 2,
  and must contain no blacklisted word (case-insensitive). Accepting it
  stores the answer and drops the draft. A warning fires when leaving with
  unsubmitted text.
- **Data export.** Four store lookups, each turned into `null` when the
  value is missing or empty.

Modules, one file each:

- `Wrappers`: `Option`, where `None` is JavaScript's `null`.
- `JsText`: `trim`, `\s`, `toLowerCase` and `includes`. A JavaScript string
  is modelled as `seq<char>`, one `char` per UTF-16 code unit, for text in
  the Basic Multilingual Plane (see "Left out" for other characters).
- `LocalStore`: `localStorage` as a class over a `map<string, string>`.
- `PasswordStrength`, `SignupForm`, `Progress`, `VideoGate`, `Survey`,
  `DataExport`: one module per feature.

Pure rules are functions with lemmas. State that the script changes in place
is a class:

- the gate's `requirementMet` flag;
- the banner on the page;
- the survey page's text and `submitted` flag;
- the store.

Each class method states its whole new state in terms of the functions.
Navigation is not performed. The methods return the address the script would
open, as an `Option`.

Three behaviours of `app.js` that are easy to misread:

- A sample of 18 s of a 40 s video unlocks the gate, because 18 ≥ 15,
  although it is under half the video (`VideoGate.SampleExamples`).
- The resume banner appears only when the current page has a key, the
  stored key is non-empty and the two differ (app.js:57,
  `Progress.ShowsResume`).
- The empty password gets the Weak tier's 25% bar with the caption
  "Enter a password", not a 0% bar (`PasswordStrength.StrengthLabel`).

## Model

| member | source | states |
|---|---|---|
| `JsText.Trim` | app.js:141 | The trimmed string neither starts nor ends with `trim`/`\s` whitespace; it is empty exactly when the input is all whitespace |
| `JsText.TrimStart` | app.js:141 | Leading whitespace removal gives a suffix of the input whose dropped prefix is all whitespace |
| `JsText.TrimEnd` | app.js:141 | Trailing whitespace removal gives a prefix of the input whose dropped suffix is all whitespace |
| `JsText.TrimIsMiddle` | app.js:141 | The trimmed string is a slice of the input with only whitespace before it and after it |
| `JsText.TrimIdempotent` | app.js:141 | Trimming twice equals trimming once |
| `JsText.ToLower` | app.js:360 | Lower-casing keeps the length, turns each ASCII capital into its lower-case letter (32 code points on), leaves no capital, and keeps every other code unit |
| `JsText.ToLowerUpToCase` | app.js:360 | Two strings equal up to the case of ASCII letters lower-case to the same string |
| `JsText.Includes` | app.js:361 | `includes` can only hold when the word fits in the text, and holds when the text starts with the word |
| `JsText.IncludesSpec` | app.js:361 | `includes(s, w)` holds exactly when `w` occurs at some index of `s` |
| `PasswordStrength.CountTrue` | app.js:170-175 | The count of satisfied checks is at most their number; it is 0 exactly when none holds and maximal exactly when all hold |
| `PasswordStrength.Score` | app.js:169-175 | The score lies between 0 and 5 |
| `PasswordStrength.ScoreUnfolds` | app.js:170-175 | The score is the sum of the five indicators: length ≥ 4, length ≥ 6, an ASCII digit, an ASCII capital, a code unit outside `[A-Za-z0-9]` |
| `PasswordStrength.GetPasswordStrength` | app.js:169-180 | The counter method returns the tier of the number of satisfied checks |
| `PasswordStrength.Tier` | app.js:177-179 | A score of at most 1 is Weak, 2 or 3 is Medium, 4 or more is Strong; the bar width is 25, 60 or 100 percent |
| `PasswordStrength.TierMonotone` | app.js:177-179 | A higher score never gives a narrower bar |
| `PasswordStrength.EmptyScoresZero` | app.js:169-179 | The empty password scores 0 and is Weak (25%, `bg-danger`) |
| `PasswordStrength.StrongHasMinimumLength` | app.js:171-179 | A Strong password has at least 4 code units |
| `PasswordStrength.WeakExample` | app.js:169-177 | "abcd" is Weak |
| `PasswordStrength.MediumExample` | app.js:169-178 | "abcd1" is Medium |
| `PasswordStrength.StrongExample` | app.js:169-179 | "Abcd1!" passes all five checks and is Strong |
| `PasswordStrength.StrengthLabel` | app.js:199-204 | The caption is "Enter a password" exactly when the field is empty, so it never coincides with a rating; any other value gets "Weak", "Medium" or "Strong", the level of its tier |
| `SignupForm.ValidateName` | app.js:140-152 | Passes exactly when the trimmed name has ≥ 2 code units; an all-whitespace name always gets "Please enter your name."; a one-unit name gets the length message |
| `SignupForm.MatchesEmailPattern` | app.js:156 | A string the pattern accepts has at least five code units |
| `SignupForm.EmailPatternCharacterization` | app.js:156 | The pattern accepts exactly the strings with no whitespace, a single `@` that is not first, and a `.` after it with text on both sides |
| `SignupForm.ValidateEmail` | app.js:154-167 | An all-whitespace value gets the empty-field message and never the format message; otherwise it passes exactly when the trimmed value matches the pattern |
| `SignupForm.AcceptedEmailIsWellFormed` | app.js:154-167 | Every accepted address, trimmed, has no whitespace, exactly one `@`, and a `.` after it with text on both sides |
| `SignupForm.ShortestAddressAccepted` | app.js:154-167 | "a@b.c" passes |
| `SignupForm.MissingDotRejected` | app.js:154-167 | "a@b" fails with the format message |
| `SignupForm.EmptyEmailRejected` | app.js:154-160 | "" fails with the empty-field message |
| `SignupForm.ValidatePassword` | app.js:182-197 | With no trimming, the password passes exactly when its length is ≥ 4; the empty one gets "Please enter a password.", lengths 1 to 3 get the length message |
| `SignupForm.BlankPasswordAccepted` | app.js:183-193 | Four spaces pass the password check although they trim to nothing |
| `SignupForm.StrongPasswordPasses` | app.js:169-197 | A password the meter rates Strong always passes the password check |
| `SignupForm.EvaluateSignup` | app.js:220-230 | Each field's verdict depends on that field alone, so all three are reported; the sign-up proceeds exactly when name, e-mail and password all pass |
| `SignupForm.SignupWrites` | app.js:239-240 | A successful sign-up stores the trimmed name and e-mail address and leaves every other key as it was |
| `SignupForm.SignupOutcome.Feedback` | app.js:224-241 | The success message is shown exactly when all three fields pass; otherwise the form asks to correct the highlighted fields |
| `SignupForm.SubmitSignup` | app.js:215-250 | The submit handler returns the three verdicts; on failure the store is untouched and there is no redirect; on success the store gets the trimmed name and e-mail and the target is pre-directions.html |
| `Progress.PageUrl` | app.js:46-52 | Exactly the five page keys have an address, and each address is an `.html` page |
| `Progress.PageLabel` | app.js:70-81 | A key is labelled "Unknown" exactly when it has no page address |
| `Progress.ShowsResume` | app.js:57 | A resume offer needs a non-empty stored page and a current page that differ; with both present and no offer they are equal |
| `Progress.BannerAfter` | app.js:55-68 | An existing banner is kept as it is; a new one appears only on a resume offer and names the stored page |
| `Progress.StoreAfter` | app.js:61-63 | After a page load, the last-page key holds the current page when there is one, and no other key changes |
| `Progress.Page.ShowResumeBanner` | app.js:66-86 | Adds a banner for the given key unless one is already present |
| `Progress.Page.InitProgressPersistence` | app.js:54-64 | The page-load step leaves the banner and the store as `BannerAfter` and `StoreAfter` prescribe, reading the last page before writing |
| `Progress.Page.Resume` | app.js:88-93 | The Resume button leads to the remembered page's address; nothing happens without a banner or for an unknown key |
| `Progress.Page.Dismiss` | app.js:95-97 | Dismiss removes the banner |
| `Progress.BannerNeverDuplicated` | app.js:66-68 | Once a banner is present, later page-load steps leave it unchanged |
| `Progress.ResumeExamples` | app.js:54-81 | From survey to hub a banner naming "Short Survey" appears; no stored page, or the same page again, gives none |
| `Progress.ConsecutiveLoads` | app.js:54-64 | After visiting page A, loading a different page B offers to resume A, and reloading A offers nothing |
| `VideoGate.SampleUnlocks` | app.js:282-298 | A sample of ≥ 15 s always meets the requirement, and so does one that has watched half of a positive duration; short of 15 s only a watched fraction ≥ 1/2 of a non-zero, non-NaN duration does; without such a duration only the 15 s count |
| `VideoGate.HalfOfPositiveDuration` | app.js:283-288 | For a positive duration the rule is `currentTime ≥ 15` or `2 * currentTime ≥ duration` |
| `VideoGate.Step` | app.js:282-306 | After one event the flag is set exactly when it was set already or the event meets the requirement on its own |
| `VideoGate.Run` | app.js:265-306 | A set flag stays set through any events, and a sequence ending in `ended` leaves it set |
| `VideoGate.RunSpec` | app.js:265-306 | After any sequence of events the flag is set exactly when it started set or some event meets the requirement |
| `VideoGate.RunMonotone` | app.js:265-306 | The flag never goes from set back to unset, whatever events follow |
| `VideoGate.EndedUnlocks` | app.js:300-306 | After an `ended` event the flag is set, whatever came before |
| `VideoGate.SampleExamples` | app.js:282-298 | 16 s of 20 and 10 s of 20 unlock; 18 s of 40 unlocks (≥ 15 s); 14 s of 40 does not; NaN, zero or infinite durations need 15 s |
| `VideoGate.Gate.constructor` | app.js:264-265 | The flag starts unset |
| `VideoGate.Gate.OnTimeUpdate` | app.js:282-298 | The `timeupdate` handler performs one `Step` on a progress sample and never clears the flag |
| `VideoGate.Gate.OnEnded` | app.js:300-306 | The `ended` handler sets the flag |
| `VideoGate.Gate.OnContinueClick` | app.js:308-311 | Continue leads to survey.html exactly when the flag is set |
| `Survey.SomeIncluded` | app.js:361 | `some` over the word list holds exactly when one of the words is included in the text |
| `Survey.ContainsProfanity` | app.js:358-362 | The text contains profanity exactly when its lower-cased form includes "badword1" or "badword2" |
| `Survey.ContainsProfanitySpec` | app.js:358-362 | Holds exactly when a blacklisted word occurs at some index of the lower-cased text |
| `Survey.ProfanityIgnoresCase` | app.js:360-361 | Lower-casing the text first does not change the result |
| `Survey.ProfanityUpToCase` | app.js:358-362 | Texts equal up to the case of ASCII letters get the same verdict |
| `Survey.CaseVariantCaught` | app.js:358-362 | Every case variant of a blacklisted word is caught |
| `Survey.UpperCaseWordCaught` | app.js:358-362 | "BADWORD1" is caught |
| `Survey.ShortTextIsClean` | app.js:384-399 | Text shorter than the minimum contains no blacklisted word, so the length rule and the blacklist never both reject an answer |
| `Survey.Verdict.Message` | app.js:384-410 | Each verdict has its own feedback text: the saved message for an accepted answer, the length message for a short one, the language message for an inappropriate one |
| `Survey.CheckAnswer` | app.js:381-399 | A trimmed length below 2 is rejected as too short, whatever the text contains; a longer answer with a blacklisted word is rejected as inappropriate; an accepted answer is the trimmed text, long enough and clean |
| `Survey.CounterTooShort` | app.js:342-352 | The counter shows "too short" exactly when submit would reject the answer as too short |
| `Survey.SurveyWrites` | app.js:408-409 | Accepting stores the answer under `surveyResponse`, removes `surveyDraft`, and leaves every other key as it was |
| `Survey.SurveyPage.constructor` | app.js:334-340 | Opening the page restores a non-empty saved draft and starts unsubmitted |
| `Survey.SurveyPage.Edit` | app.js:356 | Typing replaces the text and leaves the submitted flag as it was |
| `Survey.SurveyPage.Autosave` | app.js:373-376 | The autosave stores the untrimmed text as the draft |
| `Survey.SurveyPage.Submit` | app.js:378-419 | A refused answer changes neither the store nor the flag; an accepted one is stored, the draft is removed, the page is marked submitted and the target is learning-hub.html |
| `Survey.SurveyPage.Commit` | app.js:406-409 | The delayed step of an accepted submission marks the page submitted and leaves the store as `SurveyWrites` prescribes |
| `Survey.SurveyPage.WarnsOnLeave` | app.js:422-427 | The leave warning fires exactly when the survey is unsubmitted and the text is not blank |
| `DataExport.StoredOrNull` | app.js:515-518 | A field is null exactly when its key is missing or its value is empty; otherwise it is the stored value |
| `DataExport.BuildExport` | app.js:514-520 | The export carries the caller's timestamp; each field is null exactly when its key is missing or holds the empty string, and otherwise it is the value stored under its key |
| `DataExport.DownloadData` | app.js:512-520 | The download handler reports the four stored fields as `StoredOrNull` gives them, with the caller's timestamp |
| `DataExport.FullStoreExample` | app.js:514-520 | With "Ada", "a@b.co", "fine" and "hub" stored, the export reports exactly those four strings |
| `DataExport.EmptyStoreExample` | app.js:514-520 | An empty store exports four nulls |
| `DataExport.ExportAfterSignup` | app.js:515-516 | After a successful sign-up the export reports the trimmed name and e-mail address, never null |
| `DataExport.ExportAfterSurvey` | app.js:517 | An accepted answer (at least two code units) written by the survey is reported as itself, never null, in the export |
| `DataExport.ExportAfterPageLoad` | app.js:518 | After a page load with a page key, the export reports that key as the last page |
| `LocalStore.Store.GetItem` | app.js:55 | `getItem` returns the stored value of a present key and null for an absent one |
| `LocalStore.Store.SetItem` | app.js:62 | `setItem` makes the key hold the value and changes no other key |
| `LocalStore.Store.RemoveItem` | app.js:409 | `removeItem` removes the key and changes no other key |

## Left out

- DOM effects are not modelled: `showError`, `showSuccess`, CSS classes,
  `innerHTML`, ARIA attributes, `setContinueEnabled`, the password
  visibility toggle, the counter text and the "Watched: N%" label. Only the
  booleans, messages, tiers and targets these effects display are modelled.
- Navigation through `window.location.href` is not performed. The methods
  return the target address instead.
- The page dispatch on `document.body.dataset.page` (app.js:2-25) is not
  modelled. The current page key is a parameter of
  `Progress.Page.InitProgressPersistence`.
- The header click navigation (app.js:28-42) is left out. It is UI only.
- The learning-hub toggles are left out: concept explanations, zoom
  scaling, hint, solution, the answer check that reads `data-correct`, and
  the completion `alert`. They only reflect DOM attributes.
- `SignupForm.SubmitSignup`: the source writes the store in a 1-second
  timer and then navigates after 0.8 s. In the model both happen in the
  submit step. The source re-reads and re-trims the inputs when its timer
  fires, so an edit made during that second is not modelled.
- `Survey.SurveyPage.Submit`: the source sets `submitted` and writes the
  store 0.9 s after the click. In the model `Submit` calls that delayed
  step, `Survey.SurveyPage.Commit`, directly in the click step.
- `Survey.SurveyPage.Autosave`: the 15-second interval timer is an explicit
  method call here. The "saved" toast is left out.
- `DataExport.DownloadData`: the timestamp is a parameter, because the
  clock is not modelled. The `Blob` download, `URL.createObjectURL` and the
  `JSON.stringify` layout are left out.
- `VideoGate.SampleUnlocks`: times and the watched percentage are real
  numbers, not IEEE doubles, so rounding in `currentTime / duration * 100`
  is not modelled. An infinite duration gives a watched percentage of 0.
- `JsText.ToLower`: only the ASCII capitals are lowered.
  - Other case mappings cannot change whether an ASCII-only blacklisted
    word occurs. Every code unit of such an occurrence comes from an ASCII
    code unit or from U+212A KELVIN SIGN / U+0130 (which lower to `k` and
    `i` plus a combining mark).
  - Neither `k` nor `i` occurs in "badword1" or "badword2".
- `JsText`: characters outside the Basic Multilingual Plane are not
  modelled. A Dafny `char` is a Unicode scalar value, and no surrogate code
  unit can be written as one. So a character such as an emoji, two code
  units long in JavaScript, would count as one here. The length rules that
  read `.length` therefore hold only for text in the Basic Multilingual
  Plane. This affects `SignupForm.ValidateName`,
  `SignupForm.ValidatePassword`, `PasswordStrength.Score` and
  `Survey.CheckAnswer`. All the whitespace code units lie in the Basic
  Multilingual Plane.
- `Progress.PageLabel`: keys outside the five page keys are treated as
  absent from the label and address maps. In JavaScript, a stored key that
  names an inherited `Object.prototype` property, such as `constructor`,
  would look up that property instead. Such a key is never written by the
  app.
