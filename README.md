# Bug tracker core in Dafny

A model of the bug tracker's core, with proofs about it. It covers three parts:

- **The backend request validator and sanitiser**
  (`backend/utils/validation.js`). `validateBugData` runs five
  checks in a fixed order:
  - title trimmed length at least 3
  - description trimmed length at least 10
  - reporter not blank
  - status, when truthy, is in the status enumeration
  - priority, when truthy, is in the priority enumeration

  It collects the message of every failed check. `sanitizeInput`
  trims a string and then deletes every `<` and `>`. It returns any
  other value unchanged.
- **The five CRUD handlers of `/api/bugs`** (`backend/routes/bugs.js`).
  They run over an abstract document store: a map from id to bug
  document. Create validates the raw body, sanitises it, applies
  defaults and inserts it. Update builds an allow-listed, sanitised
  patch with a loop over the body's keys.
- **The bug form component** (`frontend/src/components/BugForm.js`).
  It is a class holding `formData` and `errors`. `validateForm`
  replaces `errors` using the three length rules. `handleChange`
  edits one field and blanks that field's message. `handleSubmit`
  hands valid data to the `onSubmit` callback and resets the form
  unless it is in edit mode.

Files:

- `js.dfy`: optional properties, JavaScript values and string
  truthiness.
- `text.dfy`: `String.prototype.trim` over the ECMAScript whitespace
  and line-terminator code points.
- `validation.dfy`: the validator and the sanitiser.
- `bug_routes.dfy`: the routes, including the class `BugStore`.
- `bug_form.dfy`: the form, including the class `BugForm`.

Modelling choices:

- **Request fields.** Each field of a request body is an
  `Option<string>`, where `None` means the property is absent.
  JavaScript truthiness of such a field means "present and non-empty".
- **The document store.** The store is a map from id to bug document.
  One counter, `clock`, supplies both the new id and the new
  `createdAt`. Listing newest-first is therefore a scan from the
  highest id down.
- **Lengths.** JavaScript's `length` counts UTF-16 code units, so
  the length rules use `Utf16Length`, which counts two for a code
  point above U+FFFF and one otherwise. Dafny's `char` is a Unicode
  scalar value, so a string holds no lone surrogate (see Left out).
- **The update body.** It is a map from field names to strings.
- **The form.** React `setState` is an immediate field assignment.
  The `onSubmit` callback is modelled as the value `HandleSubmit`
  returns: `Some(formData)` when the callback is called with that
  data, `None` when it is not called.

Consequences of the code's order of operations:

- **Sanitising can leave whitespace at the end of a string.**
  `sanitizeInput` trims before it deletes brackets, so `"a <"`
  becomes `"a "` (`SanitizeCanLeaveTrailingSpace`). For the same
  reason, sanitising is not idempotent.
- **Text handed to the store can break the validator's bounds.** The
  create route validates the raw body and sanitises afterwards. A
  title made only of brackets, such as `"<<<"`, passes validation and
  is handed to the store as `""` (`ValidatedTitleCanBeStoredEmpty`).
- **The update route does not check status or priority itself.** It
  sanitises the allowed fields and passes them on. Only the schema's
  validators, which the store runs on update, could reject a value,
  and they are not part of this model (see Left out).

## Model

| member | source | states |
|---|---|---|
| Text.LeadingWhitespace | backend/utils/validation.js:4 | the length of the leading whitespace run: everything before it is whitespace and the code point at it is not |
| Text.TrailingWhitespace | backend/utils/validation.js:4 | the length of the trailing whitespace run: everything in it is whitespace and the code point before it is not |
| Text.TrimStart | backend/utils/validation.js:4 | `trim`'s leading half drops a whitespace-only prefix, and the result does not start with whitespace |
| Text.TrimEnd | backend/utils/validation.js:4 | `trim`'s trailing half drops a whitespace-only suffix, and the result does not end with whitespace |
| Text.Trim | backend/utils/validation.js:4 | the trimmed string is no longer than its input, and neither of its ends is whitespace |
| Text.TrimIsInterior | backend/utils/validation.js:34 | the trimmed string is the slice of the input that starts where the leading whitespace ends |
| Text.TrimDropsWhitespace | backend/utils/validation.js:34 | everything trimming drops, before and after its result, is whitespace |
| Text.TrimOfTrimmed | backend/utils/validation.js:34 | a string with no whitespace at either end is its own trim |
| Text.TrimIdempotent | backend/utils/validation.js:34 | trimming twice is the same as trimming once |
| Text.TrimStartSkips | backend/utils/validation.js:34 | the leading half of `trim` removes exactly the leading run of whitespace |
| Text.TrimEndSkips | backend/utils/validation.js:34 | the trailing half of `trim` removes exactly the trailing run of whitespace |
| Text.Utf16Length | backend/utils/validation.js:4 | a string's JavaScript `length` is at least its number of code points and at most twice that |
| Text.Utf16LengthConcat | backend/utils/validation.js:4 | `length` adds up over concatenation |
| Text.TrimShortensUtf16 | backend/utils/validation.js:4 | trimming never makes a string's `length` larger |
| Validation.TooShort | backend/utils/validation.js:4-8 | the length rule: a field fails when it is falsy or its trimmed UTF-16 length is below `min`. A falsy field fails it, and so does one shorter than `min` before trimming |
| Validation.Blank | backend/utils/validation.js:12 | the reporter rule is the length rule with bound 1 |
| Validation.OutsideEnum | backend/utils/validation.js:17-22 | the enumeration rule never fails for an absent, empty or listed value |
| Validation.CollectErrors | backend/utils/validation.js:2-24 | the five conditional pushes yield each message exactly when its check failed, an empty list exactly when none failed, and the messages in rule order |
| Validation.ValidateBugData | backend/utils/validation.js:1-30 | `isValid` holds iff `errors` is empty. The title message is present iff the title is falsy or trims to fewer than 3 UTF-16 code units. The description message uses 10. The reporter message is present iff the reporter is falsy or trims to nothing. The status and priority messages are present iff the value is truthy and outside its enumeration. Errors appear in rule order |
| Validation.RuleOrderedErrorsAreFewAndDistinct | backend/utils/validation.js:2-24 | a list of messages in rule order has at most five entries, none repeated |
| Validation.ValidationErrorsAreFewAndDistinct | backend/utils/validation.js:2-24 | the validator reports at most five errors and none twice |
| Validation.UntrimmedFieldPasses | backend/utils/validation.js:4-14 | a field with no whitespace at either end passes a length rule when its own UTF-16 length does, and is not blank |
| Validation.WellFormedRecordIsValid | backend/utils/validation.js:1-30 | a record whose required fields are long enough and unpadded, with status and priority unset, validates with no errors |
| Validation.ShortFieldsReportThreeErrors | backend/utils/validation.js:4-14 | a title under 3 UTF-16 code units, a description under 10 and an empty reporter give exactly the three messages, in order, with `isValid` false |
| Validation.AstralPairPassesTitleRule | backend/utils/validation.js:4 | two code points above U+FFFF are four code units long, so they pass the title rule |
| Validation.StripBrackets | backend/utils/validation.js:34 | deleting `<` and `>` leaves a bracket-free string no longer than the input |
| Validation.SanitizeString | backend/utils/validation.js:34 | sanitising a string leaves it bracket-free and no longer than its trim, which is no longer than the input |
| Validation.SanitizeInput | backend/utils/validation.js:32-35 | a non-string value is returned unchanged; a string comes back as a bracket-free string no longer than the input |
| Validation.StripBracketsIsSubsequence | backend/utils/validation.js:34 | deleting brackets only deletes: the result is a subsequence of the input |
| Validation.StripBracketsCounts | backend/utils/validation.js:34 | no bracket survives, and every other character keeps its number of occurrences |
| Validation.StripBracketsOfBracketFree | backend/utils/validation.js:34 | a bracket-free string is left unchanged |
| Validation.StripOnlyBrackets | backend/utils/validation.js:34 | a string made only of brackets is deleted entirely |
| Validation.SanitizeIsSubsequenceOfTrim | backend/utils/validation.js:34 | the sanitised string is a subsequence of the trimmed input |
| Validation.SanitizeBracketFreeIsTrim | backend/utils/validation.js:34 | on bracket-free input, sanitising is trimming |
| Validation.SanitizeTrimsPadding | backend/utils/validation.js:34 | a bracket-free word padded with two spaces on each side sanitises to the word itself |
| Validation.SanitizeCanLeaveTrailingSpace | backend/utils/validation.js:34 | because trimming comes first, `c + " <"` sanitises to `c + " "`: the output can end in whitespace |
| BugRoutes.BugStore.constructor | backend/routes/bugs.js:3 | the bug collection starts empty, with its invariant holding |
| BugRoutes.BugStore.ListBugs | backend/routes/bugs.js:7-24 | returns 200 with `count` equal to the list length. The list holds exactly the stored bugs that match every truthy query parameter, newest first, and the store is not changed |
| BugRoutes.Matches | backend/routes/bugs.js:9-13 | with no truthy query parameter every bug matches; a truthy parameter excludes every bug whose field differs from it |
| BugRoutes.NewestFirstHasNoDuplicates | backend/routes/bugs.js:15 | a list sorted by strictly decreasing `createdAt` holds no bug twice |
| BugRoutes.BugStore.GetBug | backend/routes/bugs.js:27-45 | an absent id gives 404 `Bug not found`; a present id gives 200 with its document; the store is not changed |
| BugRoutes.BugStore.CreateBug | backend/routes/bugs.js:48-78 | an invalid body gives 400 `Validation failed` with the validator's errors as details, and nothing is written. A valid body adds exactly one document, the sanitised and defaulted body under a fresh id, and returns it with 201. The store's invariant is kept |
| BugRoutes.NewBug | backend/routes/bugs.js:60-67 | a created document has the given id and creation time. Its title, description and reporter are the sanitised body values, so they are bracket-free. A truthy status or priority is stored as given; a falsy one becomes `open` or `medium`. A truthy assignee is stored sanitised, and a falsy one becomes `Unassigned` |
| BugRoutes.ValidCreateHasEnumValues | backend/routes/bugs.js:50-67 | a body that passes validation has its three required fields, and is stored with a status and a priority from their enumerations |
| BugRoutes.CleanTitleAndPriorityStoredAsGiven | backend/routes/bugs.js:50-67 | a valid body whose title has no brackets and no surrounding whitespace, and which sets a priority, is stored with that title and that priority, and the priority is in its enumeration |
| BugRoutes.ValidatedTitleCanBeStoredEmpty | backend/routes/bugs.js:50-67 | a title of three or more brackets passes the title rule and is stored empty |
| BugRoutes.AllowedPatch | backend/routes/bugs.js:92-101 | the update set names only allowed fields, never the reporter, and every value in it is bracket-free |
| BugRoutes.ApplyUpdates | backend/routes/bugs.js:103-107 | an update never changes id, reporter or creation time, and a patch naming no allowed field changes nothing |
| BugRoutes.BuildUpdates | backend/routes/bugs.js:92-101 | the loop over the body's keys yields exactly the allow-listed keys of the body, each with its sanitised value |
| BugRoutes.PatchFromEntries | backend/routes/bugs.js:92-101 | a map holding exactly the body's allow-listed keys, each sanitised, is the update set |
| BugRoutes.PatchIgnoresOtherKeys | backend/routes/bugs.js:92-101 | keys outside the allow-list have no effect on the update set |
| BugRoutes.UpdateChangesOnlyAllowedFields | backend/routes/bugs.js:92-107 | an update sets exactly the allowed fields the body names, each to its sanitised value. Id, reporter and `createdAt` never change |
| BugRoutes.ApplyUpdatesIdempotent | backend/routes/bugs.js:103-107 | applying the same update twice is the same as applying it once |
| BugRoutes.BugStore.UpdateBug | backend/routes/bugs.js:81-116 | an absent id gives 404 and leaves the store unchanged. A present id has the allow-listed, sanitised patch applied to its document only, and the updated document is returned with 200 |
| BugRoutes.BugStore.DeleteBug | backend/routes/bugs.js:119-139 | an absent id gives 404 and leaves the store unchanged. A present id is removed, and only that id, with 200 `Bug deleted successfully` |
| BugRoutes.DeleteThenGet | backend/routes/bugs.js:130-135 | after deleting an existing bug, fetching it gives 404, and every other bug is still stored unchanged |
| FormComponent.DefaultFormData | frontend/src/components/BugForm.js:56-63 | the reset form has empty required fields, and its priority and status are values the backend accepts |
| FormComponent.InitialFormData | frontend/src/components/BugForm.js:4-11 | the initial form has exactly the reset form's six fields |
| FormComponent.InitialFormWithoutData | frontend/src/components/BugForm.js:4-11 | without initial data the form has empty text fields, priority `medium` and status `open` |
| FormComponent.InitialFormWithData | frontend/src/components/BugForm.js:4-11 | with initial data each field takes its truthy value there, or else the empty form's default |
| FormComponent.BugForm.constructor | frontend/src/components/BugForm.js:4-13 | the form starts from the initial values, with no errors |
| FormComponent.FormErrors | frontend/src/components/BugForm.js:15-28 | the error table names only required fields, and each entry is one of the validator's messages |
| FormComponent.FormErrorsTable | frontend/src/components/BugForm.js:15-28 | the error table has a title entry iff the title rule fails (lengths in UTF-16 code units), and likewise for description and reporter. It holds no other field, and each entry is its rule's message |
| FormComponent.FormErrorsInSteps | frontend/src/components/BugForm.js:15-28 | the error table is what the three conditional assignments build, in order |
| FormComponent.BugForm.ValidateForm | frontend/src/components/BugForm.js:15-32 | `errors` is replaced by the table of failing rules, and the result is true iff that table is empty |
| FormComponent.ClearError | frontend/src/components/BugForm.js:41-46 | the edited field's message is blanked when it is present; the set of fields and every other message stay |
| FormComponent.BugForm.HandleChange | frontend/src/components/BugForm.js:34-47 | only the named field of `formData` takes the new value, and `errors` changes only as `ClearError` says |
| FormComponent.BugForm.HandleSubmit | frontend/src/components/BugForm.js:49-66 | `errors` is set from the data. `onSubmit` is called, once and with the current data, iff no rule fails. After a successful submit outside edit mode the form is reset to the defaults; otherwise `formData` is unchanged |
| FormComponent.EmptyFormFailsEveryRule | frontend/src/components/BugForm.js:15-28 | submitting the empty form reports all three required fields |
| FormComponent.FormAgreesWithBackend | frontend/src/components/BugForm.js:15-28 | each form error is present iff the backend validator reports the same message for the submitted body |
| FormComponent.BackendAcceptsWhatFormAccepts | frontend/src/components/BugForm.js:15-32 | the backend accepts the submitted body iff the form shows no error and status and priority are in their enumerations |

## Left out

- **Store internals.** The store's identifier format is not modelled,
  and neither is the 400 for a malformed id, which an error handler
  outside this model produces. Schema casting, real timestamps and
  the schema validators run on update are also out. Ids and
  `createdAt` come from one counter.
- **The schema's own validation on create.** The store's schema is
  not part of this model. Whatever it checks when a document is
  created (required fields, enumerations, lengths) is not modelled.
  `CreateBug` stores every body that passes `validateBugData`, even
  one whose sanitised title is empty.
- **The schema's validation on update.** The update route asks the
  store to run the schema's validators on the update. The schema is
  not part of this model, so whatever those validators check
  (enumerations, required fields, lengths) is not modelled.
  `BugStore.UpdateBug` therefore always answers 200 for a present id.
  It stores whatever sanitised values the patch carries, even a
  status outside its enumeration or a title that `"<<<"` turns into
  `""`.
- **HTTP and the error path.** Express routing, JSON parsing, the
  `next(error)` path to the 500 responder, the health endpoint and
  the database connection are left out.
- **Concurrency.** Each handler is one atomic step on the store.
  Asynchronous execution and concurrent requests are not modelled.
- **Non-string update values.** The update body holds strings only,
  so the pass-through of non-string values in the update loop is not
  modelled. `SanitizeInput` models that pass-through on its own.
- **Non-string request fields.** Validation and create read every
  field as an optional string, so these behaviours are not modelled:
  - a truthy non-string title, description or reporter makes
    `.trim()` throw, which ends in the 500 path;
  - a truthy non-string status or priority is not in its enumeration,
    so it is reported as an invalid value;
  - a truthy non-string assignee passes through `sanitizeInput`
    unchanged and is stored as it is.
- **Non-string query parameters.** The list route puts its `status`
  and `priority` query parameters into the filter unchecked,
  whatever the query parser made of them (arrays or objects
  included). `Query` holds optional strings only.
- **Lone surrogates.** A JSON body may carry an unpaired surrogate
  escape such as `"\uD83D"`, which JavaScript keeps as one code
  unit. Dafny's `char` excludes surrogates, so such strings cannot be
  expressed, and the length rules' behaviour on them is not modelled.
- **Numbers.** `JsNumber` holds a mathematical integer rather than a
  floating-point number. The sanitiser only passes numbers through.
- **Other frontend and service files.** The HTTP client wrapper, the
  bug list, the app shell, the bug item view and the error boundary
  are UI or foreign library calls. They are not part of this model.
- **Browser details.** The form's rendering, `preventDefault` and
  the disabled reporter input in edit mode are left out.
- **Concrete unit-test values.** The unit tests' literal records and
  strings are covered by the generic lemmas `WellFormedRecordIsValid`,
  `ShortFieldsReportThreeErrors` and `SanitizeTrimsPadding`, not as
  literal instances.
