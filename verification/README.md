# Bug tracker backend: a Dafny model

This project models the domain logic of a small in-memory bug tracker's REST
backend. It covers four parts:

- **validator and sanitiser** (`backend/utils/validation.js`): `validateBug`,
  `validateStatus`, `sanitizeBug`;
- **store** (`backend/models/bugModel.js`): the `Bug` constructor and `getAll`,
  `getById`, `create`, `update`, `delete`, `clear`;
- **route decisions** (`backend/routes/bugRoutes.js`): the five `/api/bugs`
  handlers, as functions from the store and the request to the response and
  the new store;
- **list helpers** (`backend/utils/debugExamples.js`): `processTitle`, the
  filter loop of `getBugsByPriority`, `updateBugStatus`.

Files, one module each:

| file | module | contents |
|---|---|---|
| `wrappers.dfy` | `Wrappers` | `Option`, `Result` |
| `js_strings.dfy` | `JsStrings` | `trim`, UTF-16 `length`, `toUpperCase`, `join`, `parseInt` |
| `js_values.dfy` | `JsValues` | loosely typed field values, truthiness, request bodies |
| `validation.dfy` | `Validation` | validator and sanitiser |
| `bug_model.dfy` | `BugModel` | records, the store, its invariant, its operations |
| `bug_routes.dfy` | `BugRoutes` | route handlers, the router, runs of requests |
| `debug_examples.dfy` | `DebugExamples` | `processTitle`, priority filter, status map |

How the JavaScript is represented:

- **Field values.** A field of a request body, or of a stored record, is a
  `Value`. `Missing` is an absent key. `Str(s)` is a string. `Other(truthy,
  length)` is any other JSON value, described by its truthiness and its
  `length` property. So `null` is `Other(false, None)` and a three-element
  array is `Other(true, Some(3))`. This is enough for every `!x`,
  `typeof x !== 'string'` and `x.length > n` test in the validator.
- **Strings.** A string's `length` counts UTF-16 code units. `trim` strips
  the ECMAScript WhiteSpace and LineTerminator code points. `parseInt` skips
  the same whitespace, takes one sign, reads hexadecimal after `0x` and decimal
  otherwise, and ignores trailing text. `NaN` is `None`, which matches no id.
- **Errors.** Calling `trim` or `toUpperCase` on a truthy non-string throws a
  `TypeError`. It is modelled as `Result.Failure(TypeError)`.
- **The store.** The module-level `bugs` array and `nextId` counter become one
  `Store` value. Every operation takes a store and returns the new one. Records are
  values too, so nothing a caller does with a returned record reaches the
  store. In the JavaScript only `getAll`'s array is a copy, and the records
  themselves are shared (see "## Left out").
- **Time.** Each `new Date().toISOString()` is a `Timestamp` the caller passes
  in. `create` takes two, because the constructor reads the clock twice.

Four behaviours of the code that the model keeps as they are:

- `createdAt` and `updatedAt` come from two separate clock readings
  (`backend/models/bugModel.js:18-19`), so they can differ.
- `create` does not apply the sanitiser. Title and description are stored
  untrimmed, and only status and priority get defaults.
- `POST` passes the raw body to `create`; `sanitizeBug` is never called on
  that path.
- `PUT` validates only the status.

## Model

| member | source | states |
|---|---|---|
| `Validation.Violations` | backend/utils/validation.js:11-32 | Title-required is reported exactly when the title is not a string with a non-whitespace character. Title-length is reported exactly when a truthy title's raw length exceeds 100, and the description rules likewise with 500. The status error is reported exactly when the status is truthy and not one of the three. At most five rules are reported. |
| `Validation.ViolationsInRuleOrder` | backend/utils/validation.js:11-32 | Broken rules are reported in the order the checks run, each at most once. |
| `Validation.ValidateBug` | backend/utils/validation.js:10-38 | `valid` holds exactly when `errors` is empty, which is exactly when no rule is broken. `errors[i]` is the message of the `i`-th broken rule, in check order, so there is exactly one error per broken rule. |
| `Validation.ErrorsNameViolations` | backend/utils/validation.js:13-31 | A rule's message is in `errors` exactly when that rule is broken. |
| `Validation.MessagesDistinct` | backend/utils/validation.js:14-31 | The five messages are pairwise different, so each message identifies one rule. |
| `Validation.StatusMessageListsValidStatuses` | backend/utils/validation.js:29-31 | The status message is "Status must be one of: " followed by the valid statuses joined with ", ". |
| `Validation.ValidateStatus` | backend/utils/validation.js:45-48 | True exactly for the strings "open", "in-progress" and "resolved". It is false for `''`, `null`, absent and every other value, and every accepted value is truthy. |
| `Validation.BlankOverlongTitleFailsBothRules` | backend/utils/validation.js:13-19 | A title of 101 spaces breaks both title rules, in that order, because the length rule reads the untrimmed length. |
| `Validation.UnknownStatusIsOnlyError` | backend/utils/validation.js:29-32 | With a valid title and description, a truthy status outside the enumeration gives exactly one error, the status message. |
| `Validation.ListedStatusesAccepted` | backend/utils/validation.js:29-37 | With a valid title and description, an absent or empty status and each of the three statuses give `valid`. |
| `Validation.SanitizeText` | backend/utils/validation.js:57-58 | A falsy value becomes `''`, and a string becomes its trimmed infix, whose padding is whitespace only. Anything else throws. |
| `Validation.SanitizeBug` | backend/utils/validation.js:55-62 | Succeeds exactly when title and description are each falsy or a string. Title and description are the input's own trimmed values (`''` for a falsy one). A truthy status or priority passes through; otherwise they become "open" and "medium". |
| `Validation.SanitizeIdempotent` | backend/utils/validation.js:55-62 | Sanitising a sanitised bug gives the same bug. |
| `Validation.SanitizeTrimsAndDefaults` | backend/__tests__/validation.test.js:113-154 | `{title: '  Test Bug  ', description: '  This is a test bug  '}` sanitises to the trimmed strings with status "open" and priority "medium". |
| `JsStrings.Trim` | backend/utils/validation.js:13 | The result is the unique infix of the input that neither begins nor ends with whitespace and whose surrounding padding is all whitespace. It is empty exactly when the input is all whitespace. |
| `JsStrings.TrimOfPadded` | backend/utils/validation.js:57-58 | Trimming whitespace, then a trimmed non-empty core, then whitespace, gives back the core. |
| `JsStrings.Utf16Length` | backend/utils/validation.js:17 | The length lies between the number of code points and twice that number. |
| `JsStrings.Utf16LengthOfBasicPlane` | backend/utils/validation.js:17 | When every code point is in the Basic Multilingual Plane, the length equals the number of code points. |
| `JsStrings.Join` | backend/routes/bugRoutes.js:51 | No parts give `""`. Otherwise the joined string is as long as all the parts together plus one separator between each neighbouring pair. |
| `JsStrings.JoinContainsEach` | backend/routes/bugRoutes.js:51 | Every joined part occurs in the joined string. |
| `JsStrings.ParseInt` | backend/models/bugModel.js:38 | An empty or all-whitespace string is `NaN`, which matches no id. |
| `JsStrings.ParseIntOfNegativeDecimal` | backend/models/bugModel.js:38 | A minus sign followed by a decimal numeral reads as the negated number, after any whitespace and before any trailing text that starts with neither a decimal digit nor `x`/`X`. |
| `JsStrings.ParseIntOfNonNumeral` | backend/models/bugModel.js:38 | Text that, after its whitespace, starts with neither a sign nor a decimal digit is `NaN`. |
| `JsStrings.ToUpperCase` | backend/utils/debugExamples.js:22 | The result has the input's length. Each lower-case ASCII letter becomes its capital, and every other character is kept. |
| `JsStrings.ParseIntOfDecimal` | backend/models/bugModel.js:38 | `parseInt` reads back the decimal numeral of any natural number. Leading whitespace and trailing text that starts with neither a decimal digit nor `x`/`X` do not change the result (after a lone `0`, an `x` would start a hexadecimal numeral). |
| `JsValues.OrDefault` | backend/models/bugModel.js:16-17 | `v \|\| fallback` is `v` when `v` is truthy and `fallback` otherwise, so it is always truthy. |
| `BugModel.FindIndex` | backend/models/bugModel.js:54 | Gives the first position whose id equals the parsed key, or none exactly when no record matches. `NaN` matches nothing. |
| `BugModel.GetById` | backend/models/bugModel.js:37-39 | Gives the record at the first matching position, or not-found exactly when no id equals the parsed key. |
| `BugModel.NewBug` | backend/models/bugModel.js:11-21 | The new record takes the counter's value as id, and title and description exactly as given. A falsy status or priority becomes "open" or "medium", and a truthy one is kept. The record keeps the two clock readings. |
| `BugModel.Create` | backend/models/bugModel.js:44-48 | The new record is the constructor's record for the counter's value, with its status and priority defaults and its two clock readings. It goes at the end of the list. The counter goes up by exactly one. Title and description are stored untrimmed. The store invariant is preserved. |
| `BugModel.GetAll` | backend/models/bugModel.js:30-32 | Gives every stored record. In a valid store their ids strictly increase, so the list is in creation order. |
| `BugModel.Merge` | backend/models/bugModel.js:57-63 | Keys present in `data` overwrite and absent keys are kept. `id` and `createdAt` keep their old values, and `updatedAt` is the given time. A body with none of the four keys only refreshes `updatedAt`. |
| `BugModel.MergeIdempotent` | backend/models/bugModel.js:57-63 | Merging the same body again at the same time gives the same record, so repeating a `PUT` changes nothing further. |
| `BugModel.Update` | backend/models/bugModel.js:53-65 | On an unknown id it returns null and leaves the store unchanged. Otherwise only the first matching position changes, to the merged record. Length, every id, the counter and the store invariant are preserved. |
| `BugModel.Delete` | backend/models/bugModel.js:70-76 | On an unknown id it returns false and leaves the store unchanged. Otherwise it returns true and removes exactly the first matching record, keeping the others in order. The length drops by one, the counter stays, and the invariant is preserved. |
| `BugModel.Clear` | backend/models/bugModel.js:81-84 | The store is empty and satisfies the invariant. |
| `BugModel.ValidIdsDistinct` | backend/models/bugModel.js:5-6 | In a valid store, no two records share an id. |
| `BugModel.CreateThenGetById` | backend/models/bugModel.js:37-48 | In a valid store, a created record is found by its id. |
| `BugModel.UpdateThenGetById` | backend/models/bugModel.js:53-65 | After `update`, looking up the same key gives exactly what `update` returned. |
| `BugModel.DeleteThenGetById` | backend/models/bugModel.js:70-76 | In a valid store, after a successful delete the id is no longer found. |
| `BugModel.DeletedIdNotReissued` | backend/models/bugModel.js:13 | The record created after a delete gets an id above the deleted one. |
| `BugModel.ClearThenCreate` | backend/models/bugModel.js:81-84 | After `clear`, the next record gets id 1 and is the only record. |
| `BugRoutes.ListBugs` | backend/routes/bugRoutes.js:11-18 | Answers 200 with exactly the stored records in stored order. In a valid store their ids strictly increase. |
| `BugRoutes.GetBug` | backend/routes/bugRoutes.js:25-38 | Answers 404 "Bug not found" exactly when no id equals `parseInt` of the path segment. Otherwise it answers 200 with a stored record that has that id. |
| `BugRoutes.PostBug` | backend/routes/bugRoutes.js:45-59 | An invalid body gets 400, with the validator's errors joined by ", ", and the store is unchanged. A valid body gets 201 with exactly `create`'s record for the raw body, including its status and priority defaults and clock readings. The new store is `create`'s: that record is appended with the old counter as its id. The invariant is preserved. |
| `BugRoutes.PutBug` | backend/routes/bugRoutes.js:66-86 | An unknown id gets 404 whatever the status. A found id with a truthy status outside the enumeration gets 400 "Invalid status value", and the store is unchanged. Otherwise the answer is 200 with the updated record, which is what a later lookup finds. |
| `BugRoutes.DeleteBug` | backend/routes/bugRoutes.js:93-106 | An unknown id gets 404 with no change. A known id gets 200 "Bug deleted successfully", and the new store is `delete`'s, so exactly the first matching record is removed. |
| `BugRoutes.Handle` | backend/routes/bugRoutes.js:11-106 | Every answer is 200, 201, 400 or 404. A 4xx answer or a read leaves the store unchanged. A 201 answer comes exactly from a valid POST, and its record takes the counter's value. The invariant is preserved. |
| `BugRoutes.IdsNeverReused` | backend/models/bugModel.js:5-21 | Over any run of requests on a valid store, created records get strictly increasing ids. Every one is at or above the starting counter, so none equals an id the store held before. |
| `BugRoutes.PostThenGet` | backend/routes/bugRoutes.js:25-59 | After a successful POST, `GET /api/bugs/<new id>` answers 200 with the created record. |
| `BugRoutes.DeleteThenGet` | backend/routes/bugRoutes.js:93-106 | After a successful DELETE, a GET of the same id answers 404. |
| `BugRoutes.PostRejectionNamesEveryRule` | backend/routes/bugRoutes.js:47-52 | A rejected POST answers 400, leaves the store unchanged, and its message contains the message of every broken rule. |
| `BugRoutes.PutAcceptsEmptyTitle` | backend/routes/bugRoutes.js:76-82 | PUT does not re-validate the title. A found record can be given an empty title, which the validator rejects. |
| `DebugExamples.ProcessTitle` | backend/utils/debugExamples.js:13-23 | Gives `''` for a missing bug or a falsy title, and throws for a truthy non-string title. Otherwise the result is the title upper-cased: same length, each lower-case ASCII letter replaced by its capital. Non-ASCII characters are kept, which JavaScript would case-map. |
| `DebugExamples.ProcessTitleIdempotent` | backend/utils/debugExamples.js:13-23 | Processing a bug whose title is already the processed title gives that title back. |
| `DebugExamples.SelectByPriorityMeans` | backend/utils/debugExamples.js:37-43 | The selection holds exactly the records of the given priority, each as many times as it occurs in the input, as an order-preserving subsequence of the input. |
| `DebugExamples.FilterByPriority` | backend/utils/debugExamples.js:37-43 | The loop computes the selection: exactly the records of that priority, with their multiplicity, in input order. |
| `DebugExamples.GetBugsByPriority` | backend/utils/debugExamples.js:29-44 | With `getAll` awaited, the result is the selection over the store's records: exactly those of that priority, with their multiplicity, in order. |
| `DebugExamples.GetBugsByPriorityAsWritten` | backend/utils/debugExamples.js:29-44 | As written, the result is `[]` for every store and every priority. |
| `DebugExamples.AsWrittenMissesMatchingBug` | backend/utils/debugExamples.js:30 | As written, the function returns `[]` for a store holding one record of priority "high". The awaited version returns that record. |
| `DebugExamples.UpdateBugStatus` | backend/utils/debugExamples.js:73-85 | The new list has the same length. Each record with the id has the new status and every other field unchanged. Records with other ids are identical. |

## Left out

- Record aliasing: `getAll` copies only the array (`[...bugs]`). `getById`,
  `create` and `update` return the stored object itself, so in JavaScript a
  caller that changed a field of a returned record would change the store.
  Value semantics cannot express that sharing. No code in the core changes a
  returned record, so no behaviour of the modelled code depends on it.
- Express wiring is not modelled: `app.js`, the CORS and JSON middleware, the
  catch-all 404 for unmatched routes, and the 500 path for unexpected errors.
  `middleware/errorHandler` is not part of this model. The `{message}` body of
  a thrown error is the shape `backend/__tests__` asserts on.
- Async shape: store operations are modelled as synchronous calls.
- `fetchBugWithTimeout` is not modelled. Its only logic is throw-on-not-found
  and logging, which `GetBug` covers.
- Console logging in `processTitle` and `fetchBugWithTimeout` is not modelled.
- Keys of a request body other than title, description, status and priority
  are not modelled. `update`'s spread would copy them into the record. The
  constructor and `validateBug` ignore them, and `update` re-pins `id`,
  `createdAt` and `updatedAt`.
- The invariant `updatedAt >= createdAt` is not modelled. Clock readings are
  free parameters, and nothing makes them monotonic.
- `DebugExamples.ProcessTitle`: non-ASCII letters are returned unchanged.
  JavaScript's `toUpperCase` case-maps them (`'é'` becomes `'É'`), so for such
  titles the model's result differs from the program's.
- `JsStrings.ToUpperCase`: only ASCII letters are mapped. Unicode case mapping
  can change the length (`'ß'` becomes `"SS"`) and is not modelled.
- `JsStrings.ParseInt`: mathematical integers. JavaScript's doubles lose
  precision above 2^53, and that loss is not modelled.
- `Other` values that define their own `trim` or `toUpperCase` method are
  not modelled: every truthy non-string is taken to throw.
- `DebugExamples.FilterByPriority` takes the priority as a string. Strict
  equality against arbitrary non-string values is not modelled.
- `BugModel.Create`: ids are unbounded integers. In JavaScript `nextId` is a
  double, so past 2^53 `nextId++` stops increasing and ids repeat.
  `BugRoutes.IdsNeverReused` relies on the unbounded counter.
- `DebugExamples.UpdateBugStatus`: the id is an integer. In JavaScript a
  string id such as `"1"` never matches under `bug.id === id`, so nothing is
  updated; the model cannot express a string id.
- `JsStrings.Utf16Length`: Dafny strings hold Unicode scalar values. A lone
  UTF-16 surrogate, which a JSON body may carry and which counts 1 in
  `.length`, is not representable.
- Priority is not validated anywhere in the code, and the model adds no check.
- The frontend (React components, `fetch`, UI state) is not part of this model.

## Findings

| source | as written | input that shows it | evidently intended | confidence | as-written member | corrected member |
|---|---|---|---|---|---|---|
| backend/utils/debugExamples.js:30 | `bugDB.getAll()` is async and is called without `await`. `bugs.length` is then `undefined`, the loop never runs, and the result is always `[]`. | A store holding one bug with priority "high", queried for "high". | The store's records of that priority, in order. | not executed; high | `DebugExamples.GetBugsByPriorityAsWritten` | `DebugExamples.GetBugsByPriority` |
