# Categories API: privilege-change planner

A Dafny model of the forum's category API layer (`src/api/categories.ts` and its
compiled form `src/api/categories.js`, whose logic is the same line for line).
The module forwards most calls to collaborators: categories, privileges, events, user
and groups. Here the writes the module makes on them, together with the category-name
read of `delete` and the `getCategories` re-fetch of `create`, form an ordered effect
trace; every other read (user and group existence, the valid-privilege lists, the
read permission, the category data) and the answers of the two recorded reads are
inputs. The one operation with real logic is
`setPrivilege`. It checks that the target member is a user or a group and normalises
the privilege input to a list, rejecting an empty one. It then routes on
`parseInt(cid, 10)`:

- exactly zero: the request is filtered against the admin and the global
  valid-privilege lists, and each non-empty subset is applied, admin first;
- anything else, NaN included: the request is filtered against the category list, and
  that subset is applied once, even when empty.

Finally it writes one `privilege-change` audit event carrying the unfiltered input.

Modules:

- `Wrappers`: `Option` and `Result`.
- `Seqs`: the order-preserving filter `xs.filter(x => valid.includes(x))`, the comma
  join of `Array.prototype.toString`, and the inverse split used to state what the
  audit text determines.
- `EcmaParseInt`: `parseInt(string, 10)` following section 19.2.5 of ECMA-262. It trims
  `StrWhiteSpaceChar`, takes one optional sign and the longest decimal-digit prefix, and
  returns `None` for NaN.
- `Effects`: verbs, scopes, audit events, effect traces and the functions that read a
  trace back (calls per scope, names per scope, number of audit events).
- `CategoriesApi`: `Get`, `Create`, `Update`, `Delete`, `PrivilegeListing`
  (`getPrivileges`) and `SetPrivilege`.
- `PrivilegePlan`: the properties of the `setPrivilege` plan.

`setPrivilege` tests `parseInt(cid, 10) === 0`, and NaN is not `=== 0`, so a
non-numeric `cid` such as `admin` takes the category branch
(`NaNCidTakesCategoryBranch`). `getPrivileges` instead tests
`!parseInt(cid, 10)`, which is true for NaN, so the two operations route NaN
differently (`ListingDivergesFromPlanOnNaN`).

## Model

| member | source | states |
|---|---|---|
| `Seqs.Filter` | src/api/categories.ts:111 | the filtered list holds exactly the requested names that the valid list contains, and is no longer than the request |
| `Seqs.FilterMultiplicity` | src/api/categories.ts:116 | a name the valid list contains survives as often as it was requested (duplicates kept); any other name is dropped entirely |
| `Seqs.FilterIsSubsequence` | src/api/categories.ts:122 | the filter keeps the request's order |
| `Seqs.FilterKeepsAllIff` | src/api/categories.js:98 | filtering leaves the request unchanged exactly when every requested name is valid |
| `Seqs.FilterIdempotent` | src/api/categories.js:103 | a property of the model's filter, not a promise of the source: filtering twice by the same list equals filtering once |
| `Seqs.Join` | src/api/categories.ts:130 | `toString` of an empty list is the empty string; otherwise the text starts with the first name |
| `Seqs.JoinSeparatorCount` | src/api/categories.ts:130 | a property of the model's join, not a promise of the source: joining comma-free names gives one comma fewer than the list has names |
| `Seqs.SplitJoin` | src/api/categories.js:117 | splitting the joined text at commas gives back the non-empty, comma-free list |
| `EcmaParseInt.TrimStart` | src/api/categories.ts:109 | drops exactly the maximal `StrWhiteSpaceChar` prefix |
| `EcmaParseInt.DigitPrefix` | src/api/categories.ts:109 | returns the longest prefix of decimal digits |
| `EcmaParseInt.ParseInt` | src/api/categories.ts:109 | the empty string is NaN; a string starting with a digit is a number and not negative |
| `EcmaParseInt.ParseIntShape` | src/api/categories.ts:109 | a number is read only from a string holding a digit; a string starting with a digit is never NaN and never negative; a negative result needs a `-` |
| `EcmaParseInt.ParseIntOfFormat` | src/api/categories.ts:109 | round trip: any integer rendered in decimal is read back, whatever white space comes before it and whatever non-digit text follows it |
| `EcmaParseInt.DigitsValueOfFormat` | src/api/categories.ts:109 | the digits of a rendered natural number evaluate to that number |
| `EcmaParseInt.DigitsValueZeroIff` | src/api/categories.ts:109 | a digit string has value 0 exactly when all its digits are `0` |
| `EcmaParseInt.ParseIntZeroIff` | src/api/categories.ts:109 | `parseInt(cid, 10) === 0` exactly when some digits are read and all are `0` (so `-0` counts) |
| `EcmaParseInt.ParseIntOfWord` | src/api/categories.js:96 | a string starting with a character that is not white space, a sign or a digit is NaN |
| `EcmaParseInt.ParseIntOfAdmin` | src/api/categories.ts:84-86 | `admin` and the empty string are NaN |
| `EcmaParseInt.ParseIntOfDigit` | src/api/categories.ts:109 | a lone decimal digit reads as its value |
| `EcmaParseInt.ParseIntOfZeroThen` | src/api/categories.js:96 | a `0` after any white space and before any non-digit text reads as zero |
| `EcmaParseInt.ParseIntOfPaddedZero` | src/api/categories.js:75 | ` 0x1A` is zero: radix 10 stops at `x` |
| `EcmaParseInt.ParseIntOfNegativeZero` | src/api/categories.js:96 | `-0` reads as zero, which `=== 0` accepts and `!` treats as falsy |
| `EcmaParseInt.ParseIntReadsPrefix` | src/api/categories.ts:86 | only the leading digits are read: `12abc` is 12 |
| `CategoriesApi.Get` | src/api/categories.ts:34-46 | the data is returned exactly when it exists and the caller may read; otherwise `null` |
| `CategoriesApi.Create` | src/api/categories.js:34-42 | touches no privilege registry and writes no audit event; makes exactly two calls, storing the payload strictly before fetching the new `cid` as the caller; answers the first fetched object, or `undefined` exactly when none was fetched |
| `CategoriesApi.Update` | src/api/categories.ts:56-63 | missing data fails with `invalid-data` and makes no store call; otherwise one store update with the payload |
| `CategoriesApi.Delete` | src/api/categories.ts:65-79 | reads the name before purging; exactly one audit event, last, is `category-purge` with that name, the `cid` and the caller; exactly three calls, so no privilege registry call, second purge or store write is made |
| `CategoriesApi.PrivilegeListing` | src/api/categories.ts:81-93 | `admin` gives the admin listing; otherwise a falsy `parseInt` (NaN or 0) gives the global listing; else the category listing for the `cid` as given |
| `CategoriesApi.Normalize` | src/api/categories.ts:104-108 | the list is empty exactly for an empty array |
| `CategoriesApi.PrivilegeText` | src/api/categories.ts:130 | `data.privilege.toString()` is the comma join of the normalised list, so a single name and the one-element array holding it give the same text |
| `CategoriesApi.ApplyIfAny` | src/api/categories.ts:112-119 | read back through the trace: the given scope is called once when its subset is non-empty and never when it is empty, no other scope is called, the given scope receives exactly the subset, and no audit event is written |
| `CategoriesApi.ScopeApplies` | src/api/categories.js:96-112 | every registry call of a request uses the request's verb and member |
| `CategoriesApi.SetPrivilege` | src/api/categories.ts:95-135 | success exactly when the target is a user or a group and the input is not an empty array, whatever the `cid` and the valid lists; `no-user-or-group` exactly when neither lookup holds, even for an empty list; `invalid-data` exactly when the target exists and the list is empty; on success the last effect is the audit event and all earlier ones are registry calls with the request's verb and member |
| `PrivilegePlan.AppliedNamesByScope` | src/api/categories.ts:109-124 | the names a scope receives are the request filtered by that scope's list if the `cid` routes there, otherwise none |
| `PrivilegePlan.ApplyCountByScope` | src/api/categories.ts:109-124 | admin and global are each called once when routed and their subset is non-empty, else never; the routed category is called exactly once even with an empty subset; other scopes are never called |
| `PrivilegePlan.AppliedMultiplicity` | src/api/categories.js:96-112 | a requested name reaches a routed scope whose list contains it as often as it was requested, and no other scope |
| `PrivilegePlan.AppliedNamesKeepOrder` | src/api/categories.ts:111-122 | each scope's names keep the request's order |
| `PrivilegePlan.AppliedNamesAreValid` | src/api/categories.ts:111-122 | a name applied to a scope is in that scope's list and was requested |
| `PrivilegePlan.UnknownNameAppliedNowhere` | src/api/categories.js:98-110 | a name in no list is applied to no scope, and the request still succeeds |
| `PrivilegePlan.ThrownMessages` | src/api/categories.ts:101-108 | a failing `setPrivilege` throws `[[error:no-user-or-group]]` exactly when the member is neither user nor group, and `[[error:invalid-data]]` otherwise; a missing `update` payload throws `[[error:invalid-data]]` as at line 58; the two texts differ |
| `PrivilegePlan.AdminBeforeGlobal` | src/api/categories.ts:110-119 | every admin call precedes every global call |
| `PrivilegePlan.SingleAuditEventLast` | src/api/categories.ts:126-134 | exactly one audit event, written last, with the unfiltered input text, the original `cid` and the member as target |
| `PrivilegePlan.VerbAgreesWithAuditAction` | src/api/categories.ts:105-132 | the action is `grant` exactly when `set` is truthy; every registry verb is `give` exactly when the action is `grant` |
| `PrivilegePlan.AuditTextRecoversRequest` | src/api/categories.ts:130 | when no requested name holds a comma, splitting the audit text at commas gives back the normalised request |
| `PrivilegePlan.SingleNameLoggedAsList` | src/api/categories.ts:104 | a single name and a one-element array holding it normalise and log identically |
| `PrivilegePlan.NaNCidTakesCategoryBranch` | src/api/categories.ts:109-124 | a NaN `cid` such as `admin` gives one category call keyed by that `cid`, and no admin or global call |
| `PrivilegePlan.ListingAgreesWithPlanOnNumbers` | src/api/categories.ts:84-90 | for a numeric `cid`, `getPrivileges` picks the global listing exactly when `setPrivilege` takes the admin/global branch, and the category listing exactly when it takes the category branch |
| `PrivilegePlan.ListingDivergesFromPlanOnNaN` | src/api/categories.js:72-80 | for a NaN `cid`, `getPrivileges` picks the admin listing (for `admin`) or the global listing, while `setPrivilege` routes the same `cid` to its category |
| `PrivilegePlan.PartitionExample` | src/api/categories.ts:109-119 | with `cid` `0`, admin name `a`, global name `g` and a name `u` in neither list, the trace is `give([a])` on admin, `give([g])` on global, then the audit event |
| `PrivilegePlan.EmptyCategoryApplyExample` | src/api/categories.ts:120-124 | a category request whose only name the category list lacks still makes one category call, with an empty list |

## Left out

- The async machinery is not modelled: `async`/`await`, `Promise.all`, and the
  `__awaiter`/`__importDefault` helpers of the compiled file. The paired lookups
  (user/group existence, read permission/category data) are two inputs read together.
- The foreign modules (`../categories`, `../privileges`, `../events`, `../user`,
  `../groups`) are not part of this model. Their answers are inputs, and their calls
  appear as trace entries with no semantics.
- Collaborator failures are not modelled. The trace is the all-calls-succeed path. The
  source has no rollback: a failing global call after a successful admin call leaves
  the admin change in place.
- Timing of the list reads is not modelled. The global list is read after the admin
  call and the category list only in its branch, but the model takes all three lists
  up front. A registry whose list changes because of an earlier call is outside the
  model.
- Persistence round trips are not modelled, for example `getPrivileges` showing an
  earlier grant: they depend on registry storage outside this module.
- No ordering is modelled between concurrent requests (last writer wins): the source
  has no logic for it.
- A privilege input that is neither a string nor an array is not modelled
  (`undefined`, `null`, a number). For `undefined`, `[undefined]` passes the length
  check and `data.privilege.toString()` then throws after the registry calls. Array
  elements are strings.
- `CategoriesApi.PrivilegeRequest`: `set` is declared `string` but used only for its
  truthiness, which is the `grant` boolean here. So the string `"false"`, which is
  truthy, has to be passed as `true`.
- `EcmaParseInt.ParseInt` models only radix 10, and the exact integer stands in for
  the IEEE double. The routing reads only NaN, zero or non-zero, and no non-empty digit
  string other than all zeros rounds to zero. `ParseIntShape` states the function's
  general properties; `ParseIntOfFormat` and `ParseIntZeroIff` pin down its exact
  value.
- `CategoriesApi.PrivilegeListing` says which registry listing is returned, not what
  the listing contains. The contents come from the privileges module.
- `CategoriesApi.Get`: `read` and the category data are used only for their truthiness.
  They are modelled as a boolean and an `Option`.
- The TypeScript type declarations and casts are not modelled.
