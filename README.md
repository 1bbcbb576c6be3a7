# Lab component lending tracker — a Dafny model

The system lends electronic lab components to students. A student browses the
catalog, files a request for a component ("Requested"), and every mentor is
mailed about it. A mentor approves or rejects the request ("Approved" /
"Rejected"), and later marks an approved loan as returned ("Returned"); the
student is mailed about each decision. A student may also return an approved
loan from their own table. Mentors also see per-component usage statistics.
An administrator keeps the inventory (add, edit, delete) and exports the
transaction log as CSV.

This project models the client-side core of that system: the status lifecycle
and the buttons it offers, the mentor handlers, the student's request form and
own table, the inventory editor, the usage statistics, the transaction report
and its CSV export, the catalog search and availability pill, and the e-mail
helper with its four templates. Each React component becomes a module. A
component with event handlers (the mentor table, the student's table, the
request form, the inventory editor) keeps its state in a `class View` whose
fields the handlers update (`modifies this`). The fetch-and-render views (the
statistics, the transaction report, the catalog) become functions over the
fetched rows plus a loading method (`ComponentStats.Aggregate` with its loops
`SeedEntries` and `CountRequests`, `TransactionReport.FetchTransactions`);
the catalog's search box is the `term` argument of its functions. What the
store returns and how the mail route answers are method parameters; what a handler does to the outside world (store writes, store
calls, `sendEmailNotification` calls) is returned as a trace. Loops of the
source (`forEach` index maps, the statistics counts, the mentor mail loop) are
`while` loops with invariants, proved against specification functions whose
properties are lemmas.

Modules:

- `Strings`: decimal rendering, `Number.parseInt`, ASCII `toLowerCase`,
  `includes`, `join` and `split`.
- `Values`: `Option`, `Result`, thrown values and the `catch` message rule,
  the `||` default, `data || []`.
- `Seqs`: `filter`, counts, and the `forEach` id-to-value maps.
- `Records`: the store rows and the store writes.
- `Lifecycle`: the four statuses, the actions each status offers, status
  lookup and update, the status pill colours and icons.
- `EmailService`, `RequestsManagement`, `MyRequests`, `RequestForm`,
  `ComponentManagement`, `ComponentStats`, `TransactionReport`,
  `ComponentCatalog`: one per source file of the same name.

## Model

| member | source | states |
|---|---|---|
| Strings.NatToString | code/components/component-management.tsx:123 | a count renders as a non-empty run of decimal digits with no leading zero |
| Strings.ParseInt | code/components/component-management.tsx:53-54 | `Number.parseInt` gives NaN exactly when the text does not start with a digit |
| Strings.ParseIntOfNatToString | code/components/component-management.tsx:123 | parsing the rendered digits of a count gives the count back |
| Strings.ParseIntOfNumberToString | code/components/component-management.tsx:123 | parsing `x.toString()` gives `x` back, NaN included |
| Strings.Lower | code/components/component-catalog.tsx:52-53 | `toLowerCase` lowers each character in place and keeps the length; further meaning is stated by LowerIdempotent and SearchIgnoresCase |
| Strings.Contains | code/components/component-catalog.tsx:52-53 | `includes`; its meaning is stated by ContainsAt and ContainsEmpty |
| Strings.LowerIdempotent | code/components/component-catalog.tsx:52-53 | lowering an already lowered text changes nothing |
| Strings.ContainsAt | code/components/component-catalog.tsx:52-53 | `includes` holds exactly when the term occurs at some position |
| Strings.ContainsEmpty | code/components/component-catalog.tsx:52-53 | every text includes the empty term |
| Strings.FillContains | code/lib/email-service.tsx:14-27 | a template filled with values contains each value |
| Strings.Join | code/components/transaction-report.tsx:65-70 | `Array.join`; its meaning is stated by SplitJoin, JoinFree and JoinPrefix |
| Strings.SplitJoin | code/components/transaction-report.tsx:65-70 | splitting a join at a separator no part contains gives the parts back |
| Strings.JoinFree | code/components/transaction-report.tsx:65-70 | a join of parts free of a character is free of it when the separator differs |
| Strings.JoinPrefix | code/components/transaction-report.tsx:65-70 | the first line of a join is its first part, followed by the separator when more follow |
| Values.OrElse | code/components/transaction-report.tsx:46-52 | `v \|\| fallback` is the value when it is a non-empty text and the fallback when it is missing or empty |
| Values.RowsOf | code/components/requests-management.tsx:37 | `data \|\| []`: the rows read, or no rows when the read gave none; used by every page's loading step |
| Values.CaughtMessage | code/components/requests-management.tsx:83-85 | a `catch` shows the message of a thrown `Error` and the handler's fallback text for any other thrown value |
| Seqs.Filter | code/components/requests-management.tsx:150 | a filter keeps only satisfying elements of the input, and never more elements than it has |
| Seqs.FilterMembership | code/components/requests-management.tsx:150 | an element is kept exactly when it is in the input and satisfies the test |
| Seqs.FilterConcat | code/components/requests-management.tsx:150 | filtering keeps the input's order: a filter of a concatenation is the concatenation of the filters |
| Seqs.FilterAll | code/components/component-management.tsx:111 | when every element satisfies the test, the filter keeps the whole input |
| Seqs.FilterNone | code/components/requests-management.tsx:150 | when no element satisfies the test, the filter is empty |
| Seqs.CountConcat | code/components/my-requests-table.tsx:205-218 | a count over a concatenation is the sum of the counts |
| Seqs.CountMono | code/components/component-stats.tsx:35-37 | a weaker test never counts fewer elements |
| Seqs.IndexOfLookup | code/components/requests-management.tsx:41-44 | an id is in the `forEach` map exactly when some row has it, and it maps to the value of the last such row |
| Seqs.Index | code/components/requests-management.tsx:41-53 | the `forEach` loop builds exactly that map |
| Lifecycle.MentorActions | code/components/requests-management.tsx:228-257 | Approve and Reject are offered exactly for "Requested", Mark Returned exactly for "Approved", and nothing else is offered |
| Lifecycle.StudentActions | code/components/my-requests-table.tsx:175-188 | the student is offered Return Component exactly for "Approved", and nothing else |
| Lifecycle.OfferedMovesForward | code/components/requests-management.tsx:228-257 | every offered action starts from "Requested" or "Approved" and moves the request strictly forward |
| Lifecycle.TerminalStatuses | code/components/requests-management.tsx:228-257 | no action is offered on a rejected or returned request |
| Lifecycle.ReplayBounded | code/components/requests-management.tsx:228-257 | following offered buttons, each step advances the stage, so at most two steps are possible, the status stays one of the four, and a request is never "Requested" again |
| Lifecycle.FindById | code/components/requests-management.tsx:65-66 | `find` gives nothing exactly when no row has the id, and otherwise the first row that has it |
| Lifecycle.SetStatus | code/components/requests-management.tsx:81 | the `map` gives every row with the id the new status and leaves every other row as it was |
| Lifecycle.SetStatusAbsent | code/components/my-requests-table.tsx:82 | an id that is in no row leaves the list unchanged |
| Lifecycle.SetStatusOne | code/components/requests-management.tsx:77-81 | with unique ids, the update changes exactly the one row with the id and ids stay unique |
| Lifecycle.StatusBadge | code/components/requests-management.tsx:152-165 | the grey pill is used exactly for statuses other than Requested, Approved and Rejected; StatusBadgeSeparates states which statuses share a colour |
| Lifecycle.StatusBadgeSeparates | code/components/requests-management.tsx:152-165 | two statuses get the same pill colour exactly when they are equal or both outside Requested, Approved and Rejected (so "Returned" looks like an unknown status) |
| Lifecycle.StatusIcon | code/components/my-requests-table.tsx:106-119 | the default icon text is used exactly for unknown statuses; StatusIconSeparates states that the four known icons differ |
| Lifecycle.StatusIconSeparates | code/components/my-requests-table.tsx:106-119 | two statuses get the same icon exactly when they are equal or both unknown |
| EmailService.LookupTemplate | code/lib/email-service.tsx:13-69 | a template exists exactly for "request", "approved", "rejected" and "returned", each with its own subject and body |
| EmailService.BuildEmail | code/lib/email-service.tsx:66-82 | an unknown type throws `Unknown email type: …`, each of the four known types builds a payload to the given address with the type's subject and its body filled with the data |
| EmailService.Deliver | code/lib/email-service.tsx:71-93 | delivery succeeds exactly when the route answers OK with a JSON body; a rejected fetch rethrows its reason, a non-OK answer throws "Failed to send email", and an OK answer yields the parsed body or rethrows the parse error |
| EmailService.SendEmailNotification | code/lib/email-service.tsx:65-94 | an unknown type fails before any network call; a known type succeeds or fails as the delivery does |
| EmailService.UnknownTypeBeforeNetwork | code/lib/email-service.tsx:66-69 | for an unknown type the outcome does not depend on the route's answer and is always an error |
| EmailService.RequestHtml | code/lib/email-service.tsx:16-26 | the "request" body; its meaning is stated by RequestBodyFields |
| EmailService.ApprovedHtml | code/lib/email-service.tsx:30-38 | the "approved" body; its meaning is stated by DecisionBodyFields |
| EmailService.RejectedHtml | code/lib/email-service.tsx:42-50 | the "rejected" body; its meaning is stated by DecisionBodyFields |
| EmailService.ReturnedHtml | code/lib/email-service.tsx:54-62 | the "returned" body; its meaning is stated by ReturnedBodyFields |
| EmailService.RequestBodyFields | code/lib/email-service.tsx:14-27 | the mentor mail shows the student, the component, the quantity and the reason |
| EmailService.DecisionBodyFields | code/lib/email-service.tsx:28-51 | the approval and rejection mails show the mentor, the component and the quantity |
| EmailService.ReturnedBodyFields | code/lib/email-service.tsx:52-63 | the return mail shows the component and the quantity and does not depend on the mentor, student or reason |
| RequestsManagement.EmailTypeOf | code/components/requests-management.tsx:71-75 | each mentor handler sends one of the known mail types |
| RequestsManagement.NoticeData | code/components/requests-management.tsx:71-75 | the notification carries the request's quantity, the component's name when known, and "Mentor" except for a return |
| RequestsManagement.NoticeContent | code/components/requests-management.tsx:71-75 | a handler's notification renders to the student with the decision's subject and shows the component and the quantity (and "Mentor" for approve and reject) |
| RequestsManagement.FilteredRequests | code/components/requests-management.tsx:150 | "all" shows the whole list, another filter shows only requests from the list with that status; FilteredRequestsMeaning gives the converse and the order |
| RequestsManagement.FilteredRequestsMeaning | code/components/requests-management.tsx:150 | "all" shows the whole list; any other filter shows exactly the requests with that status, in list order |
| RequestsManagement.View.constructor | code/components/requests-management.tsx:33-59 | after the fetch the table holds the request rows and the id maps of component names and student contacts (`null` read as empty) |
| RequestsManagement.View.SetFilter | code/components/requests-management.tsx:177 | a filter click sets the filter and nothing else |
| RequestsManagement.View.RowButtons | code/components/requests-management.tsx:228-257 | a row shows exactly the buttons its status offers, each disabled exactly while a handler for that request runs |
| RequestsManagement.View.NotifyThenUpdate | code/components/requests-management.tsx:71-85 | the notification is awaited first; a failed one writes nothing and shows the error; otherwise the status is written, and the local list changes only when the write succeeds |
| RequestsManagement.View.HandleAction | code/components/requests-management.tsx:61-148 | approve, reject and mark-returned: an unknown id or missing student writes and mails nothing; otherwise mail first, then the one status write; component quantities are never written; the busy marker is cleared on every path |
| MyRequests.ActionCellFor | code/components/my-requests-table.tsx:175-188 | the Return button reads "Returning..." exactly while that request is being returned; ActionCellMeaning states which statuses get the button, a note or nothing |
| MyRequests.ActionCellMeaning | code/components/my-requests-table.tsx:175-188 | only an approved row has the Return button; other known statuses show a note, unknown ones nothing |
| MyRequests.SummaryCounts | code/components/my-requests-table.tsx:205-218 | the four card counts; their meaning is stated by SummaryCoversList and ReturnMovesOneCount |
| MyRequests.SummaryCoversList | code/components/my-requests-table.tsx:201-220 | the four cards together count at most every request, and exactly every request when all statuses are known |
| MyRequests.ReturnMovesOneCount | code/components/my-requests-table.tsx:205-218 | returning an approved loan moves one from the Approved card to the Returned card and leaves the others |
| MyRequests.View.constructor | code/components/my-requests-table.tsx:27-48 | after the fetch the table holds the student's rows and the component-name map |
| MyRequests.View.HandleReturnComponent | code/components/my-requests-table.tsx:73-89 | one "Returned" write is issued; the local row changes only when it succeeds; the busy marker is cleared |
| RequestForm.SingleComponent | code/components/request-component-form.tsx:36-41 | the lookup finds an id exactly when one component has the name, and it is that component's id |
| RequestForm.SingleUser | code/components/request-component-form.tsx:44 | the lookup finds a user exactly when one user has the id, and it is that user |
| RequestForm.MentorNoticeData | code/components/request-component-form.tsx:67-73 | the mentor mail data: the student's name and e-mail, or "Unknown" when missing or empty, the typed component name and reason, the parsed quantity, and no mentor name |
| RequestForm.MentorEmailContent | code/components/request-component-form.tsx:67-73 | each mentor mail uses the request template and shows the student, component, quantity and reason |
| RequestForm.NotifyMentors | code/components/request-component-form.tsx:64-78 | every mentor gets exactly one notification, in list order, and a failed one neither stops the loop nor escapes it |
| RequestForm.View.constructor | code/components/request-component-form.tsx:14-20 | the form starts empty and idle |
| RequestForm.FailedAttempts | code/components/request-component-form.tsx:64-78 | the number of mentor mails that threw among the first `n`, never more than were attempted |
| RequestForm.View.InsertAndNotify | code/components/request-component-form.tsx:44-87 | the request is inserted as "Requested" for the student and component; an insert error stops before any mail and keeps the form; otherwise every mentor is mailed, the number of mails that threw is returned, and the form is cleared |
| RequestForm.View.HandleSubmit | code/components/request-component-form.tsx:24-91 | no session or no single matching component: nothing is inserted or mailed; otherwise as above, with the failed mails counted and nothing counted on the early paths; the success message does not depend on the mail outcomes; loading is cleared on every path |
| ComponentManagement.FromForm | code/components/component-management.tsx:80-85 | the saved component has the form's name, description and parsed total, and its available count equals the total |
| ComponentManagement.ApplyEdit | code/components/component-management.tsx:63-72 | the edit replaces every entry with the id by the form's component and leaves the others |
| ComponentManagement.SubmitWrite | code/components/component-management.tsx:48-86 | a submit updates the edited row when an id is being edited and inserts otherwise, with the form's name and description and available set to the parsed total |
| ComponentManagement.EditIdempotent | code/components/component-management.tsx:63-72 | saving the same edit twice equals saving it once |
| ComponentManagement.AddThenDelete | code/components/component-management.tsx:91-111 | deleting a just-added component under a fresh id restores the list |
| ComponentManagement.EditRoundTrip | code/components/component-management.tsx:118-124 | loading a component into the form and saving it keeps its total and resets available to the total |
| ComponentManagement.DeleteMeaning | code/components/component-management.tsx:111 | delete keeps exactly the entries with other ids, in order, and an absent id changes nothing |
| ComponentManagement.View.constructor | code/components/component-management.tsx:31-39 | the editor starts with the fetched rows, an empty form and nothing being edited |
| ComponentManagement.View.HandleAddComponent | code/components/component-management.tsx:41-101 | editing writes an update and replaces the entry, adding inserts and appends the echoed row; the form is reset unless the store threw |
| ComponentManagement.View.HandleDelete | code/components/component-management.tsx:103-116 | an unconfirmed delete does nothing; a confirmed one issues one delete and filters the entry out only when it succeeds |
| ComponentManagement.View.HandleEdit | code/components/component-management.tsx:118-125 | the component is loaded into the form with its total as text and marked edited |
| ComponentManagement.View.HandleCancel | code/components/component-management.tsx:127-130 | editing stops and the form is cleared |
| ComponentStats.KeysOf | code/components/component-stats.tsx:41 | `Object.values` yields one entry per distinct component id, each id once |
| ComponentStats.SeedEntries | code/components/component-stats.tsx:28-30 | the seeding loop builds the id map of zero counts and its key order |
| ComponentStats.CountRequests | code/components/component-stats.tsx:32-39 | the counting loop leaves the keys alone and gives each component its number of requests and of approved requests |
| ComponentStats.Aggregate | code/components/component-stats.tsx:20-41 | the page's statistics are the usage of each component over all requests |
| ComponentStats.UsageStats | code/components/component-stats.tsx:41 | the page's statistics; their meaning is stated by OneEntryPerId, EntriesStartAtZero, AddRequest, AddUnknownRequest, ApprovedWithinRequests and CardTotals |
| ComponentStats.TotalRequests | code/components/component-stats.tsx:70 | the "Total Requests" card; its meaning is stated by CardTotals |
| ComponentStats.TotalApproved | code/components/component-stats.tsx:74 | the "Approved Requests" card; its meaning is stated by CardTotals |
| ComponentStats.SeedsAreZero | code/components/component-stats.tsx:28-30 | every seeded entry starts at zero requests and zero approvals |
| ComponentStats.OneEntryPerId | code/components/component-stats.tsx:41 | there is exactly one statistics entry per distinct component id |
| ComponentStats.EntriesStartAtZero | code/components/component-stats.tsx:28-30 | with no requests every entry shows zero |
| ComponentStats.AddRequest | code/components/component-stats.tsx:32-39 | one more request adds one to its component's request count (and approvals when approved) and leaves the other entries alone |
| ComponentStats.AddUnknownRequest | code/components/component-stats.tsx:33 | a request for an unknown component changes no entry |
| ComponentStats.ApprovedWithinRequests | code/components/component-stats.tsx:35-37 | no component has more approvals than requests |
| ComponentStats.CardTotals | code/components/component-stats.tsx:70-74 | the summary cards count the requests (and approved requests) for known components, and approvals never exceed requests |
| TransactionReport.BuildRecord | code/components/transaction-report.tsx:43-53 | a record copies the request's id, quantity and status, shows "Unknown" for a missing student or component and "Pending" for no return date |
| TransactionReport.BuildRecords | code/components/transaction-report.tsx:43-53 | one record per request, in order |
| TransactionReport.FetchTransactions | code/components/transaction-report.tsx:24-57 | the fetch builds the records from the rows and both id maps |
| TransactionReport.ReportedStudent | code/components/transaction-report.tsx:37-47 | a record shows the name and e-mail of the last user row with the student's id, or "Unknown" when there is none |
| TransactionReport.Fields | code/components/transaction-report.tsx:68 | a row has one field per header |
| TransactionReport.CsvLines | code/components/transaction-report.tsx:65-70 | the CSV has the header line and then one line per record |
| TransactionReport.ExportCsv | code/components/transaction-report.tsx:65-70 | the CSV text; its meaning is stated by CsvStartsWithHeader and CsvRoundTrip |
| TransactionReport.CsvStartsWithHeader | code/components/transaction-report.tsx:63-66 | the file starts with the header line, followed by a newline when there are records |
| TransactionReport.HeaderLine | code/components/transaction-report.tsx:63-66 | the header line splits back into the headers |
| TransactionReport.RowLine | code/components/transaction-report.tsx:67-69 | a record whose fields hold no comma or newline splits back into its fields |
| TransactionReport.CsvRoundTrip | code/components/transaction-report.tsx:65-70 | for such records, splitting the file by lines and fields gives back the headers and every record's fields |
| TransactionReport.ReportBadge | code/components/transaction-report.tsx:114-122 | the red pill is shown exactly for statuses other than Approved, Requested and Returned |
| ComponentCatalog.FilterComponents | code/components/component-catalog.tsx:50-54 | the search keeps only matching components from the catalog; SearchMeaning gives the converse and the order |
| ComponentCatalog.SearchMeaning | code/components/component-catalog.tsx:50-54 | the search keeps exactly the components whose name or description contains the term ignoring case, in catalog order |
| ComponentCatalog.EmptyTermKeepsAll | code/components/component-catalog.tsx:50-54 | an empty search shows the whole catalog |
| ComponentCatalog.SearchIgnoresCase | code/components/component-catalog.tsx:50-54 | lower-casing the term does not change the result |
| ComponentCatalog.EmptyNotice | code/components/component-catalog.tsx:117-121 | no notice when something matches; "No components available yet." exactly for an empty catalog; "No components match your search." when the catalog is not empty but nothing matches |
| ComponentCatalog.AvailabilityLevel | code/components/component-catalog.tsx:56-61 | for a positive total "High" above half available, "Medium" above a fifth, "Low" otherwise; a zero total gives High exactly when something is available; NaN gives Low |
| ComponentCatalog.PercentageCompare | code/components/component-catalog.tsx:57-60 | comparing the percentage with 50 or 20 is the same as comparing the cross-multiplied counts |
| ComponentCatalog.LevelMonotone | code/components/component-catalog.tsx:56-61 | with the total fixed, more available units never give a lower level |
| ComponentCatalog.CatalogBadge | code/components/component-catalog.tsx:63-74 | the grey pill is used exactly for a level other than High, Medium and Low |
| ComponentCatalog.CardBadgeNeverDefault | code/components/component-catalog.tsx:93-109 | a catalog card's pill is never the grey default |

## Left out

- Strings.ParseInt: leading whitespace and a sign are not modelled ("-1" parses to NaN here, to -1 in JavaScript); input values are taken to be texts a number field can hold.
- Strings.Lower: ASCII letters only; Unicode case mapping is not modelled.
- Strings.NatToString: no exponent form, because counts beyond 2^53 are not modelled.
- Number values beyond JavaScript's safe-integer range and fractional numbers are not modelled; a quantity is a natural number or NaN.
- A NaN component total written to the store (where JSON turns it into `null`) is read back as NaN. Request rows read back always carry a natural quantity: a request inserted with a NaN quantity is not modelled on the way back.
- ComponentCatalog.AvailabilityLevel: a `null` total read back from the store is held as NaN and gives "Low"; in JavaScript `available / null` with something available is Infinity, so the page shows "High".
- ComponentManagement.View.HandleEdit: a `null` total is held as NaN and loads the text "NaN" into the form; in JavaScript `null.toString()` throws.
- `Object.values` order is modelled as first-insertion order. JavaScript puts integer-like keys first; the model does not, on the assumption that the store's ids are never integer-like text (such as generated UUIDs).
- Ids that collide with `Object.prototype` property names are not modelled.
- EmailService.LookupTemplate: `emailTemplates[type]` also finds inherited `Object.prototype` keys such as "toString"; the model knows only the four templates. Every caller passes one of the four types.
- RequestsManagement.MissingStudentError: the text of the TypeError thrown by reading `.email` of `undefined` is the V8 wording; other engines word it differently.
- The body of the mail route's JSON answer is abstract: only whether it parses is modelled.
- The mail route handler, the webhook route, the pages, login and registration are not part of this model.
- React rendering, realtime subscriptions, asynchronous interleaving of handlers and stale state captured by closures are not modelled; each handler runs to completion on the state it starts from.
- `console.error` logging is not modelled; the failed mentor mails are counted instead (NotifyMentors, InsertAndNotify and HandleSubmit return that count).
- Loading flags of the fetches and the colour of the message banner (picked by searching the message text) are not modelled.
- Dates are rendered by a `formatDate` parameter standing for the locale formatting.
- The CSV download (Blob, object URL, anchor click) is not modelled; the model stops at the CSV text.
- ComponentManagement.View.HandleAddComponent: the row echoed by the insert is taken to be the form's component under a new id; an insert whose `.select()` returns an empty list is not modelled.
- MyRequests.View.constructor: models the signed-in case; the early return without a user is not modelled.
- ComponentCatalog.AvailabilityLevel: covers a zero total and NaN quantities too, as the division in the code does, instead of assuming a positive total.
- RequestsManagement.View.HandleAction and RequestForm.View.HandleSubmit: they return the `sendEmailNotification` call made, not the rendered mail; what each call renders to is stated by RequestsManagement.NoticeContent and RequestForm.MentorEmailContent.
