# Job application form, modelled in Dafny

This project models InterForm, a small React job-application form. It has two parts.

**The form controller** (`JobApplicationForm`) keeps two pieces of state:
- a draft record of nine fields (`formData`);
- an error map (`errors`).

It has four handlers:
- `handleChange` replaces one text field.
- `handleCheckboxChange` appends a skill to the skills list or filters it out.
- `validateForm` builds the error map.
- `handleSubmit` hands a draft without errors to the `onSubmit` callback, and otherwise stores the error map.

The portfolio URL is checked with one fixed regular expression (`isValidUrl`).

**The read-only summary** (`FormSummary`) lists the entries of a submitted record as `key: value` rows. It drops entries that are `null` or the empty string, and joins arrays with `", "`.

Files:

- `Wrappers.dfy`: the `Option` datatype.
- `Strings.dfy`: the two JavaScript built-ins the form relies on.
  - `String.prototype.trim` is modelled over the ECMAScript whitespace set: WhiteSpace and LineTerminator, including every Unicode `Zs` space.
  - `Array.prototype.join`.
- `Url.dfy`: the URL pattern `^(https?:\/\/)?([\w-]+\.)+[\w-]+(\/[\w- .\/?%&=]*)?$`, written two ways:
  - a grammar (`Matches`);
  - a character-by-character recogniser (`IsValidUrl`) that scans one whole label at a time.

  They are proved to accept exactly the same strings.
- `Form.dfy`: the controller.
  - The draft is a datatype (`Draft`) and the controller a class (`JobApplicationForm`).
  - The error rules are stated field by field as a declarative table (`Check`, `Errors`).
  - `ValidateForm` follows the source's sequence of conditional insertions. It is proved to return exactly `Errors(d)`.
- `Summary.dfy`: the summary's row filter and formatting.
  - It is proved against an independent list of the positions of the kept entries (`KeptIndices`).
  - It is then applied to the draft that the form hands over.

Where the intended behaviour and the code differ, the model follows the code:

- Checking a skill box appends the value without a duplicate check. So two "checked" events for the same value leave it in the list twice (`CheckTwiceDuplicates`). Duplicates cannot arise from the rendered checkboxes alone: a box shows as checked exactly when its value is in the list, and `CheckboxEventKeepsSkillsWellFormed` proves that such events keep the list free of duplicates.
- A successful submit does not clear `errors`. The map left by an earlier failed submit stays as it was (`HandleSubmit`).
- The URL is tested on the untrimmed value, so a value with a leading space is rejected as "not valid" (`RejectedLeadingSpace`).

## Model

| member | source | states |
|---|---|---|
| Strings.IsWhitespace | src/components/JobApplicationForm.jsx:53 | the characters `trim()` strips: ECMAScript WhiteSpace and LineTerminator. `TrimIsSlice` and `TrimEmptyIffBlank` pin it to `trim` |
| Strings.Blank | src/components/JobApplicationForm.jsx:53-83 | a value every character of which `trim()` strips. `TrimEmptyIffBlank` shows that `!value.trim()` tests exactly this |
| Strings.Trim | src/components/JobApplicationForm.jsx:53 | what `trim()` returns neither starts nor ends with whitespace |
| Strings.TrimIsSlice | src/components/JobApplicationForm.jsx:53 | `trim()` keeps a slice of the string and drops only whitespace on either side of it |
| Strings.TrimEmptyIffBlank | src/components/JobApplicationForm.jsx:53-64 | `!value.trim()` holds exactly when every character of the value is whitespace |
| Strings.Join | src/components/FormSummary.jsx:16 | `Array.prototype.join`: its length is fixed by `JoinLength`, and its order and separators by `JoinSnoc` |
| Strings.JoinLength | src/components/FormSummary.jsx:16 | `join` puts exactly one separator between neighbours: the length is the total of the parts plus (n-1) separators |
| Strings.JoinSnoc | src/components/FormSummary.jsx:16 | joining a list with one more element adds the separator and that element at the end, so the join keeps list order |
| Url.Matches | src/components/JobApplicationForm.jsx:89 | the anchored pattern as a grammar: an optional scheme, one or more `[\w-]+.` labels, a last label, and an optional path |
| Url.LabelLength | src/components/JobApplicationForm.jsx:89 | the longest run of `[\w-]` characters at the front: all of its characters match, and the next one does not |
| Url.PathCharsOnly | src/components/JobApplicationForm.jsx:89 | true exactly when every character is in `[\w- .\/?%&=]` |
| Url.HostFrom | src/components/JobApplicationForm.jsx:89 | the label-by-label scan of host and path. `HostFromCorrect` shows it accepts exactly a host followed by an optional path |
| Url.SchemeLength | src/components/JobApplicationForm.jsx:89 | the prefix it takes is one the optional `(https?:\/\/)?` group allows |
| Url.FirstLabelIsLongest | src/components/JobApplicationForm.jsx:89 | a first label followed by a dot or by a path is the longest run of label characters, so scanning whole labels loses no match |
| Url.HostFromSound | src/components/JobApplicationForm.jsx:89 | whatever the label-by-label scan accepts is a host followed by an optional path |
| Url.HostFromComplete | src/components/JobApplicationForm.jsx:89 | every host followed by an optional path is accepted by the scan |
| Url.HostFromCorrect | src/components/JobApplicationForm.jsx:89 | the scan accepts exactly a host followed by an optional path |
| Url.NoHostBeforeScheme | src/components/JobApplicationForm.jsx:89 | a string that opens with `http://` or `https://` has no host at its very start |
| Url.SchemeIsForced | src/components/JobApplicationForm.jsx:89 | when the string opens with `http://` or `https://`, every match of the pattern takes that prefix as its scheme |
| Url.IsValidUrl | src/components/JobApplicationForm.jsx:87-91 | `isValidUrl`: accepts exactly the strings `Matches` accepts, by `IsValidUrlIffMatches` |
| Url.ValidUrlMatches | src/components/JobApplicationForm.jsx:87-91 | everything `isValidUrl` accepts matches the pattern |
| Url.MatchesValidUrl | src/components/JobApplicationForm.jsx:87-91 | everything the pattern matches, `isValidUrl` accepts |
| Url.IsValidUrlIffMatches | src/components/JobApplicationForm.jsx:87-91 | `isValidUrl(s)` holds exactly when the anchored pattern matches all of `s` |
| Url.ValidUrlStartsWithLabelChar | src/components/JobApplicationForm.jsx:87-91 | an accepted URL is non-empty and starts with a `[\w-]` character, never with whitespace |
| Url.ValidUrlHasDot | src/components/JobApplicationForm.jsx:87-91 | an accepted URL contains a dot |
| Url.NoDotRejected | src/components/JobApplicationForm.jsx:87-91 | a string without a dot is rejected |
| Url.AcceptedWithScheme | src/components/JobApplicationForm.jsx:87-91 | `"https://example.com/p"` is accepted |
| Url.AcceptedBareHost | src/components/JobApplicationForm.jsx:87-91 | `"example.com"` is accepted |
| Url.RejectedWithSpaces | src/components/JobApplicationForm.jsx:87-91 | `"not a url"` is rejected |
| Url.RejectedWithoutDot | src/components/JobApplicationForm.jsx:87-91 | `"localhost"` is rejected |
| Url.RejectedLeadingSpace | src/components/JobApplicationForm.jsx:87-91 | `" example.com"` is rejected |
| Form.InitialDraft | src/components/JobApplicationForm.jsx:5-15 | the initial `formData`. `InitialDraftErrors` gives its six errors |
| Form.Check | src/components/JobApplicationForm.jsx:51-85 | the rule for one field. `RequiredFieldErrors`, `RelevantExperienceError`, `PortfolioURLError`, `ManagerErrors` and `SkillsError` state each rule |
| Form.Errors | src/components/JobApplicationForm.jsx:51-85 | the error map: one entry per failing field. `ValidateForm` is proved to return it |
| Form.ErrorsByInsertion | src/components/JobApplicationForm.jsx:51-85 | inserting each field's error in the order the source tests them yields exactly the declarative error map |
| Form.AlwaysRequiredAgree | src/components/JobApplicationForm.jsx:53-64 | after the first four insertions the map holds exactly the errors of `fullName`, `email`, `phoneNumber` and `position` |
| Form.LaterInsertionsAgree | src/components/JobApplicationForm.jsx:65-83 | the last five insertions extend agreement from the first four fields to all nine |
| Form.InsertionStep | src/components/JobApplicationForm.jsx:51-85 | inserting one more field's error keeps the map equal to the errors of the fields handled so far |
| Form.ErrorsAreTheAgreeingMap | src/components/JobApplicationForm.jsx:51-85 | a map that agrees with the rules on all nine fields is the error map |
| Form.PositionDependentChecks | src/components/JobApplicationForm.jsx:65-77 | the three position-dependent rules, with the portfolio URL tested by the recogniser |
| Form.RequiredFieldErrors | src/components/JobApplicationForm.jsx:53-83 | each of `fullName`, `email`, `phoneNumber`, `position` and `interviewTime` has an error exactly when it is blank, with that field's fixed message |
| Form.RelevantExperienceError | src/components/JobApplicationForm.jsx:65-67 | `relevantExperience` has an error exactly when `position` is `"Developer"` or `"Designer"` and the value is blank |
| Form.PortfolioURLError | src/components/JobApplicationForm.jsx:68-74 | `portfolioURL` is checked only for designers. Blank gives "required"; non-blank and not matching gives "not valid"; a match gives no error |
| Form.PortfolioURLByRecogniser | src/components/JobApplicationForm.jsx:68-74 | the same rule stated with the recogniser: an accepted URL has no error, and a non-blank rejected one is "not valid" |
| Form.ManagerErrors | src/components/JobApplicationForm.jsx:65-77 | `managementExperience` has an error exactly when `position` is `"Manager"` and it is blank. A manager never gets a `relevantExperience` or `portfolioURL` error |
| Form.SkillsError | src/components/JobApplicationForm.jsx:78-80 | `additionalSkills` has an error exactly when the list is empty, whatever it holds |
| Form.InitialDraftErrors | src/components/JobApplicationForm.jsx:5-15 | the initial draft has exactly six error keys: the five always-required fields and `additionalSkills` |
| Form.DeveloperExample | src/components/JobApplicationForm.jsx:65-67 | for a developer, an empty `relevantExperience` is an error and `"2"` is not |
| Form.DesignerInvalidExample | src/components/JobApplicationForm.jsx:68-74 | a designer's portfolio `"not a url"` gives "Portfolio URL is not valid" |
| Form.DesignerValidExample | src/components/JobApplicationForm.jsx:68-74 | a designer's portfolio `"https://example.com/p"` gives no error |
| Form.Without | src/components/JobApplicationForm.jsx:33 | `filter(skill => skill !== value)` removes every occurrence of the value and keeps the count of every other value |
| Form.WithoutAppend | src/components/JobApplicationForm.jsx:33 | the filter works element by element, so what it keeps stays in its original order |
| Form.WithoutAbsent | src/components/JobApplicationForm.jsx:33 | filtering out a value the list does not hold changes nothing |
| Form.ToggledSkills | src/components/JobApplicationForm.jsx:27-39 | the new skills list: the value is in it exactly when `checked`, and every other value keeps its count |
| Form.CheckThenUncheck | src/components/JobApplicationForm.jsx:27-39 | checking a box that was unchecked and then unchecking it restores the list |
| Form.CheckTwiceDuplicates | src/components/JobApplicationForm.jsx:29-31 | two "checked" events for the same value add it twice: there is no duplicate check |
| Form.CheckboxEventKeepsSkillsWellFormed | src/components/JobApplicationForm.jsx:145-153 | with each box checked exactly when its value is in the list, a click keeps the list free of duplicates and unknown skills, and leaves the value in the list exactly when the box is now checked |
| Form.SingleOccurrence | src/components/JobApplicationForm.jsx:145-153 | in a skills list without duplicates, each skill occurs exactly once |
| Form.JobApplicationForm.constructor | src/components/JobApplicationForm.jsx:5-17 | the form starts with every text field empty, no skill and no error |
| Form.JobApplicationForm.HandleChange | src/components/JobApplicationForm.jsx:19-25 | the named text field takes the new value; every other field and the error map are unchanged |
| Form.JobApplicationForm.HandleCheckboxChange | src/components/JobApplicationForm.jsx:27-39 | checked appends the value at the end; unchecked filters out every occurrence of it; no other field and not the error map changes |
| Form.JobApplicationForm.TrimsToEmpty | src/components/JobApplicationForm.jsx:53 | the test `!value.trim()` returns true exactly when the value is blank |
| Form.JobApplicationForm.RequireNonBlank | src/components/JobApplicationForm.jsx:53-55 | one `if (!value.trim())` step: inserts the message exactly when the value is blank |
| Form.JobApplicationForm.CheckPortfolioURL | src/components/JobApplicationForm.jsx:68-74 | the designer's URL step: "required" when blank, else "not valid" when the recogniser rejects it, else nothing |
| Form.JobApplicationForm.ValidateForm | src/components/JobApplicationForm.jsx:51-85 | the map built by the sequence of conditional insertions is exactly the error map of the rules |
| Form.JobApplicationForm.HandleSubmit | src/components/JobApplicationForm.jsx:41-49 | the draft goes to `onSubmit` exactly when it has no error, and `errors` is then left as it was. Otherwise the error map is stored. The draft never changes |
| Form.SubmittedDraftIsComplete | src/components/JobApplicationForm.jsx:41-49 | a draft that is handed over has the five required fields non-blank and at least one skill. Its position's extra fields are filled too, and a designer's URL matches the pattern |
| Summary.Shown | src/components/FormSummary.jsx:11 | a value other than `null` and `''`. `ShownExamples` and `KeptFrom` pin it down |
| Summary.Display | src/components/FormSummary.jsx:16 | a string is written unchanged; an array is joined with `", "`, so one element is written as itself and no element gives the empty string |
| Summary.Rows | src/components/FormSummary.jsx:9-19 | there are never more rows than entries |
| Summary.KeptFrom | src/components/FormSummary.jsx:10-13 | increasing positions, holding exactly the entries whose value is neither `null` nor `''` |
| Summary.RowsFollowKeptFrom | src/components/FormSummary.jsx:9-19 | the rows of a suffix of the entries are the rows of the kept entries of that suffix, in order |
| Summary.RowsFollowKeptIndices | src/components/FormSummary.jsx:9-19 | one row per kept entry, in entry order, and no other row |
| Summary.RowForKey | src/components/FormSummary.jsx:9-16 | with distinct keys, an entry has a row exactly when its value is neither `null` nor `''`, and that row shows its formatted value |
| Summary.RowsKeepEntryOrder | src/components/FormSummary.jsx:9 | with distinct keys, rows appear in the order of their entries |
| Summary.RowsAppend | src/components/FormSummary.jsx:9-19 | the rows of two runs of entries are the rows of each run, one after the other |
| Form.FieldIndex | src/components/JobApplicationForm.jsx:5-15 | the position of each field in the order the initial state declares them |
| Form.EveryFieldListed | src/components/JobApplicationForm.jsx:5-15 | the declaration order lists every one of the nine fields, so the error map can range over it |
| Summary.Entries | src/components/JobApplicationForm.jsx:5-15 | `Object.entries(formData)`: one entry per field, in declaration order, with distinct keys |
| Summary.DraftRow | src/components/FormSummary.jsx:10-13 | for a draft, a text field is listed exactly when it is not `''`, and the skills are always listed, even when empty |
| Summary.DraftRowText | src/components/FormSummary.jsx:15-16 | a listed text field shows its value unchanged; the skills show joined with `", "` |
| Summary.DraftRowOrder | src/components/FormSummary.jsx:9 | a draft's rows appear in field declaration order, `fullName` through `interviewTime` |
| Summary.ManagerSummaryOmitsPortfolio | src/components/FormSummary.jsx:10-13 | a manager's draft with an empty portfolio URL has no `portfolioURL` row, but has a `position` row |
| Summary.SubmittedDraftRows | src/components/FormSummary.jsx:10-13 | a draft the form accepted lists `fullName`, `email`, `phoneNumber`, `position`, `additionalSkills` and `interviewTime` |
| Summary.FilledDraftRows | src/components/FormSummary.jsx:10-13 | a draft whose required fields are not blank lists each of them and the skills |
| Summary.SkillsExample | src/components/FormSummary.jsx:16 | `["JavaScript","Python"]` is written `JavaScript, Python`, and its row reads `additionalSkills: JavaScript, Python` |
| Summary.ShownExamples | src/components/FormSummary.jsx:11 | only `null` and `''` are dropped: a blank string and an empty array are still listed |
| Summary.CheckedSkillAppendsToRow | src/components/FormSummary.jsx:16 | checking one more box adds `", "` and that skill at the end of the listed skills |

## Left out

- Rendering: JSX markup, DOM events and React re-render scheduling are not modelled (`src/components/JobApplicationForm.jsx:93-165`, `src/components/FormSummary.jsx:5-8, 20-22`). State setters are direct assignments to the class's fields.
- Conditional visibility: which inputs are shown for which position (`src/components/JobApplicationForm.jsx:117-141`) is not modelled. The validation rules do not depend on it.
- Form.JobApplicationForm.HandleCheckboxChange: `push` mutates the array that the current draft already holds, so the old and the new state share one array. The model appends to a value instead, so this aliasing is not captured.
- Form.JobApplicationForm.HandleChange: the field name comes from the DOM. The model takes it from the eight text fields. The skills list is reached only through `handleCheckboxChange`, as in the rendered form.
- Browser-side input checks: the constraints of `type="email"`, `"tel"`, `"number"` and `"datetime-local"` are not modelled. The browser enforces them, not the code.
- `src/App.js`: not part of this model. It only switches from the form to the summary once a draft is submitted.
- Strings.Trim: strings are sequences of Unicode scalar values, not UTF-16 code units. Whitespace is the fixed ECMAScript set.
- Summary.Rows: a record value that is neither a string, an array nor `null` (a number, a nested object) is not modelled. The form never produces one.
- Styling (CSS).
