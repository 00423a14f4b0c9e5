# Visitor record store — a Dafny model

SmartVisit is a browser front-end for visitors to a building. A visitor registers a
visit request. Staff log in with a shared password and approve or reject
pending requests. A visitor looks up the status of their request by phone
number. The only logic in it that is not rendering is a small record store:
a list of `Visitor` records, newest first, with these operations and views:

- registration, which prepends a PENDING record;
- a status change keyed by id;
- the staff login flag;
- the staff search filter;
- the split of records into a pending queue and a decided history;
- a per-id cache of purpose analyses;
- the visitor-side lookup by exact phone number, with its status badge.

The model lifts this logic out of the React handlers as pure functions over
`seq<Visitor>` and `map` values. The modules follow the source files:

| module | source | contents |
|---|---|---|
| `Types` | `types.ts` | `VisitStatus`, `Visitor`, the five-field registration form, status string values |
| `Builtins` | (JavaScript runtime) | `Array.prototype.filter`, `Array.prototype.find`, `String.prototype.includes`, each with a reference definition |
| `App` | `App.tsx` | `addVisitor`, `updateStatus`, password login and logout |
| `AdminPage` | `components/AdminPage.tsx` | search filter, pending/history split, analysis cache guard |
| `LookupPage` | `components/LookupPage.tsx` | exact phone lookup, search handler state, status badge |
| `Workflow` | (across the above) | registration/decision followed by lookup, decided records leaving the queue |

Some inputs come from the environment, so they are parameters:

- the id from `Math.random().toString(36).substr(2, 9)`;
- the clock value from `Date.now()`;
- `toLowerCase`, as `lower: string -> string`, with no property assumed;
- the analysis service, as `service: string -> A`;
- the JavaScript truthiness of a stored reply, as `truthy: A -> bool`.

Where the workflow the UI presents and the code disagree, the model follows the code:

- Statuses have no transition guard. `updateStatus` can move an APPROVED
  record back to PENDING (`App.DecisionIsNotFinal`), even though the UI only
  offers approve and reject on pending records.
- Id uniqueness is not guaranteed by registration. It holds after `addVisitor`
  exactly when it held before and the generated id was fresh
  (`App.AddVisitorKeepsIdsUnique`).
- The cache guard tests the truthiness of `analyses[id]`, not whether the key
  is present. A falsy stored reply is therefore requested again
  (`AdminPage.FalsyReplyIsRetried`). The object replies the service normally
  returns are always truthy.

## Model

| member | source | states |
|---|---|---|
| Types.StatusEnumClosed | types.ts:2-6 | the status enum has exactly three pairwise distinct members and every status is one of them |
| Types.Tag | types.ts:3-5 | each member's string value is its own name, so decoding the value gives the member back |
| Types.ParseTag | types.ts:2-6 | a string decodes to a status exactly when it is one of "PENDING", "APPROVED", "REJECTED" |
| Types.ParseTagRoundTrip | types.ts:3-5 | a decoded string re-encodes to itself |
| Types.TagInjective | types.ts:3-5 | two statuses have the same string value if and only if they are the same status |
| Types.VisitorDeterminedByParts | types.ts:8-17 | a visitor is exactly its five user-supplied fields plus id, status and createdAt: two records are equal iff those parts are |
| Types.NewVisitorFromParts | types.ts:9-16 | a record is a fresh record rebuilt from its form, id and creation time iff its status is PENDING |
| Types.NewVisitor | App.tsx:26-31 | a new record copies the five supplied fields, takes the given id and clock value, and has status PENDING |
| Builtins.Filter | components/AdminPage.tsx:17-23 | the filter result is no longer than the input, holds only input elements that pass, and holds every input element that passes |
| Builtins.FilterIsSubsequence | components/AdminPage.tsx:17-23 | the filter result is an order-preserving subsequence of its input |
| Builtins.FilterLength | components/AdminPage.tsx:22-23 | the filter keeps exactly as many elements as satisfy the predicate |
| Builtins.FilterPartition | components/AdminPage.tsx:22-23 | filtering by a predicate and by its complement gives lengths summing to the input's and multisets summing to the input's |
| Builtins.FilterKeepsAll | components/AdminPage.tsx:17-20 | when every element passes, the filter returns its input unchanged |
| Builtins.FilterCons | components/AdminPage.tsx:17-23 | filtering a list with a known head keeps that head in front exactly when it passes |
| Builtins.FindIndex | components/LookupPage.tsx:17 | the index returned holds the first passing element; no index means no element passes |
| Builtins.Find | components/LookupPage.tsx:17 | `find` returns the element at the first passing position, and returns nothing iff no element passes |
| Builtins.FindHead | components/LookupPage.tsx:17 | a passing head is the element found |
| Builtins.OccursImpliesIncludes | components/AdminPage.tsx:18-19 | every occurrence of the term at some position makes `includes` true |
| Builtins.IncludesIffOccurs | components/AdminPage.tsx:18-19 | `includes` is true iff the term occurs as a contiguous slice at some position |
| Builtins.Includes | components/AdminPage.tsx:18-19 | `includes` is true iff the term occurs at some index (see IncludesIffOccurs); it never holds for a term longer than the string and always holds for the empty term |
| Builtins.EmptyIncluded | components/AdminPage.tsx:19 | every string includes the empty string |
| App.AddVisitor | App.tsx:25-33 | registration gives a list one longer whose head is a PENDING record with the form's fields, the given id and clock value, and whose tail is the old list |
| App.AddVisitorKeepsIdsUnique | App.tsx:28-32 | ids stay unique after registration iff they were unique before and the generated id was not in use |
| App.UpdateStatus | App.tsx:35-37 | a status change keeps length, order, every id and every non-status field; matching records get the new status; records with other ids are identical |
| App.UpdateStatusKeepsIds | App.tsx:36 | a status change keeps the list of ids, hence keeps uniqueness in both directions |
| App.UpdateUnknownIdIsNoop | App.tsx:36 | a status change for an id no record carries returns the list unchanged |
| App.UpdateLastWriteWins | App.tsx:36 | two status changes on one id equal the second alone |
| App.UpdateIdempotent | App.tsx:36 | repeating a status change has no further effect |
| App.DecisionIsNotFinal | App.tsx:36 | an approved or rejected record can be set back to PENDING |
| App.SubmitPassword | App.tsx:116-122 | the password "admin123" raises the staff flag; any other input leaves the flag alone and sets the wrong-password message |
| App.LoginOnlyWithPassword | App.tsx:116-122 | from a logged-out session, submitting grants staff rights iff the input is "admin123" |
| App.Logout | App.tsx:39-42 | logout always clears the staff flag, and the login form shown again (mounted afresh, App.tsx:114) has no error text |
| App.LogoutAfterLogin | App.tsx:39-42 | whatever login attempt came before, logout returns to a lowered flag and an empty login error |
| AdminPage.Search | components/AdminPage.tsx:17-20 | the search keeps exactly the input records whose lower-cased name includes the lower-cased term or whose phone number includes the raw term, each as often as it occurs: its length is the number of matching input records |
| AdminPage.Matches | components/AdminPage.tsx:17-19 | the filter callback: a visitor matches iff its lower-cased name includes the lower-cased term or its phone number includes the raw term; so any raw phone substring and the empty term always match |
| AdminPage.SearchIsSubsequence | components/AdminPage.tsx:17-20 | the search result is an order-preserving subsequence of the list |
| AdminPage.SearchEmptyTermKeepsAll | components/AdminPage.tsx:17-20 | an empty term keeps every record in the original order, whatever lower-casing does |
| AdminPage.PhoneSubstringMatches | components/AdminPage.tsx:19 | a term occurring in the phone number as typed matches, with no case folding |
| AdminPage.Pending | components/AdminPage.tsx:22 | the pending queue holds exactly the PENDING records of its input |
| AdminPage.Historical | components/AdminPage.tsx:23 | the history holds exactly the non-PENDING records of its input, each APPROVED or REJECTED |
| AdminPage.PendingHistoricalPartition | components/AdminPage.tsx:22-23 | every record is in exactly one of the two views; their lengths and multisets sum to the input's; each keeps input order |
| AdminPage.CachedAfterStore | components/AdminPage.tsx:26-28 | the `if (analyses[id])` guard after a reply is stored under a key: only the entry stored under the id itself affects the guard for that id, and a reply stored there is judged by its own truthiness |
| AdminPage.HandleAnalyze | components/AdminPage.tsx:25-29 | a cached truthy entry means no service request and an unchanged cache; otherwise the purpose is sent once and the reply stored under the id, all other keys unchanged |
| AdminPage.AnalyzeAtMostOnce | components/AdminPage.tsx:26-28 | after a truthy reply is stored, a second click on the same id sends nothing and changes nothing |
| AdminPage.FalsyReplyIsRetried | components/AdminPage.tsx:26 | a falsy stored reply does not satisfy the guard, so the next click requests again |
| LookupPage.FindByPhone | components/LookupPage.tsx:17 | the lookup returns the first record in list order whose phone number equals the query exactly, and none iff no record has it |
| LookupPage.FindByPhoneIsFirst | components/LookupPage.tsx:17 | if some position carries the phone number, the lookup succeeds with a record at or before it |
| LookupPage.LookupIsNotNormalised | components/LookupPage.tsx:17 | no normalisation: a query containing a space finds nothing in any list whose phone numbers contain no spaces |
| LookupPage.HandleSearch | components/LookupPage.tsx:15-20 | every search sets hasSearched, keeps the typed phone, and sets the result to the first exact match in list order, or to none iff there is no match |
| LookupPage.StatusBadge | components/LookupPage.tsx:22-46 | APPROVED gets the approved badge, REJECTED the rejected badge, and PENDING (the default branch) the waiting badge, each iff |
| LookupPage.StatusBadgeInjective | components/LookupPage.tsx:22-46 | different statuses get different badges |
| Workflow.LookupAfterRegistration | components/LookupPage.tsx:17 | right after registering with phone P, looking up P returns the new record with the new id, even when older records share P |
| Workflow.LookupPageAfterRegistration | components/LookupPage.tsx:15-20 | submitting the lookup form with the new phone number shows the new record with the waiting badge |
| Workflow.LookupAfterDecision | App.tsx:35-37 | after registering and then deciding, lookup finds the record with the decided status and its other fields intact |
| Workflow.DecidedLeavesPending | components/AdminPage.tsx:22 | after an id is set to APPROVED or REJECTED, no record with that id is in the pending queue for any search term |
| Workflow.NewRecordHeadsViews | App.tsx:32 | a new record heads the pending queue, and heads the search result for any term it matches |
| Workflow.RegistrationScenario | App.tsx:25-37 | a registered visitor is found pending by phone; once approved, it is found approved with the approved badge and is absent from the pending queue |

## Left out

- Browser storage (App.tsx:12-23, App.tsx:41, App.tsx:93) is I/O and is not modelled. This covers persisting the list as JSON, reading it back, and restoring the staff flag. `JSON.parse` on corrupt stored data throws, so no fail-soft load is claimed.
- The analysis service and its prompt and JSON reply (services/geminiService.ts) are foreign calls. The reply is an opaque value of a type parameter `A`. services/geminiService.ts is not part of this model.
- The chat widget (components/ChatBot.tsx) is a UI around a foreign call.
- The registration form (components/RegistrationPage.tsx) is form state. Its `required` fields are enforced by the browser, so no precondition on the form fields is imposed.
- AdminPage.HandleAnalyze: the guard looks up `id` as a map key, whereas `analyses[id]` on a plain object also finds inherited members such as `toString` or `constructor`; generated ids are at most nine lower-case base-36 characters and cannot name such a member, so that path is unreachable in the program, although the model takes ids as arbitrary strings. It also runs synchronously. Two clicks before the awaited reply arrives could both pass the guard, and the state update applies to whatever cache exists when the reply lands. This asynchronous behaviour is not modelled. The service is a fixed function, so it gives one reply per purpose, whereas the real service can answer the same purpose differently when asked again; no property here depends on two replies to one purpose.
- App.AddVisitor: the id format (nine base-36 characters from `Math.random`) is not modelled. The id is an arbitrary parameter, and freshness is a hypothesis of `App.AddVisitorKeepsIdsUnique`, not a guarantee.
- `createdAt` is an integer parameter. Nothing makes successive `Date.now()` readings increase, so no ordering of creation times is claimed.
- `toLowerCase` is an arbitrary function. Unicode case mapping is not modelled.
- Rendering is not modelled: routing, the staff-only route guard, JSX, the QR-code URL, `window.print`, `vi-VN` date formatting, and the history tab's status labels.
