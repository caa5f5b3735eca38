# HR admin console (browser-storage variant) in Dafny

The model covers the single-page HR administration app under `src/`. Its pages and dialogs manage:

- employees, departments, accounts and equipment/leave requests;
- department transfers;
- a workflow history per employee.

All data lives in five `localStorage` keys, behind `storageService`.

The model follows the source file by file.

- `storage.dfy` (module `Storage`): the storage service. A class `Store` has one `Option<seq<_>>` field per key. `None` is an absent key, and `getX` reads an absent key as `[]`.
- `employees.dfy`, `departments.dfy`, `accounts.dfy` and `requests.dfy`: the four pages. Each is a class holding:
  - the page's state variables as fields;
  - a `const store` for the service it writes through.
- `account_dialog.dfy`, `employee_dialog.dfy`, `department_dialog.dfy`, `request_dialog.dfy` and `transfer_dialog.dfy`: the five form dialogs. Each is a class with fields `formData` and `errors`, plus the pure validation and field-update functions behind them.
- `views.dfy`: what the read-only views compute:
  - the workflow history;
  - an employee's request history;
  - item summaries;
  - status colours.
- `department_context.dfy`: the department context with its count adjuster.

Four modules are shared:

- `ids.dfy`: the three identifier policies the app uses. They are: largest suffix plus one, last element plus one, and count plus one.
- `lists.dfy`: `filter`, `map`, `findIndex` and table paging.
- `text.dfy`: `String(n)`, `padStart`, `parseInt`, `replace` and `join`.
- `sorting.dfy`: the stable comparator sort.

Inputs the browser supplies become parameters:

- the current date `today` (an ISO date string);
- `new Date(s).getTime()`, which becomes `dateKey: string -> int`;
- `localeCompare`, which becomes a ranking `typeRank: string -> int`.

A JSON round trip through `localStorage` is the identity.

Two behaviours of the code are easy to misread, and the model keeps them as written:

- **Onboarding date.** The workflow history dates the synthetic onboarding row *today*, not at the hire date (`src/components/WorkflowDialog.tsx:54`). With a transfer and a request in the past, the history therefore reads onboarding, transfer, request (`Views.WorkflowOrderExample`), not transfer, request, onboarding.
- **Next request id.** It is the last stored id plus one, not the largest id plus one (`Ids.LastElementPolicyRepeats`).

## Model

| member | source | states |
|---|---|---|
| Lists.Filter | src/services/storageService.ts:247 | `filter` keeps exactly the elements satisfying the predicate, and no more elements than it was given |
| Lists.FilterMultiset | src/services/storageService.ts:247 | `filter` keeps each satisfying element exactly as many times as it occurs and drops every other element entirely |
| Lists.FilterIsSubsequence | src/services/storageService.ts:247 | `filter` keeps the original order: its result is a subsequence of its input |
| Lists.Map | src/pages/Employees.tsx:138 | `map` has the same length, and element i is the function applied to input element i |
| Lists.FindFirst | src/services/storageService.ts:238 | `findIndex` gives the first index satisfying the predicate, or none exactly when no element does |
| Lists.PageRows | src/pages/Requests.tsx:158 | a table page shows at most 5 rows, namely rows 5·page onwards of the full list, fewer on the last page |
| Lists.PagesArePrefix | src/pages/Requests.tsx:158 | pages 0..n-1 together are the first 5·n rows in order: paging neither loses nor repeats rows |
| Lists.PagesCoverAll | src/pages/Requests.tsx:158 | enough pages show the whole list exactly once, in order |
| Text.NatToString | src/pages/Employees.tsx:55 | `String(n)` is a non-empty string of decimal digits |
| Text.PadStart | src/pages/Employees.tsx:55 | `padStart` yields max(length, width) characters: fill characters, then the original string |
| Text.LeadingDigits | src/pages/Employees.tsx:52 | the digits `parseInt` reads from a string that begins with its decimal digits, the only form of id the app writes: the longest run of leading decimal digits, stopping at the first non-digit |
| Text.RemoveFirst | src/pages/Employees.tsx:52 | `replace('EMP', '')` on an id that starts with the prefix drops exactly that prefix |
| Text.ParseIntOfPadded | src/pages/Employees.tsx:52-55 | `parseInt` reads back the number that `String(n).padStart(w, '0')` wrote |
| Text.JoinAppend | src/pages/Requests.tsx:113-115 | joining two non-empty part lists is the two joins with the separator between |
| Sorting.SortDescPermutes | src/components/WorkflowDialog.tsx:80 | the comparator sort returns a permutation of its input |
| Sorting.SortDescOrdered | src/components/WorkflowDialog.tsx:80 | the sort returns keys in non-increasing order |
| Sorting.SortDescStable | src/components/WorkflowDialog.tsx:80 | the sort is stable: elements with equal keys keep their input order |
| Ids.FormatParse | src/services/storageService.ts:255-256 | the number read back after the prefix of `${prefix}${padded n}` is n |
| Ids.FormatInjective | src/services/storageService.ts:256 | different numbers give different identifiers |
| Ids.EmployeeIdRoundTrip | src/pages/Employees.tsx:52-55 | the employee suffix of `EMP` + padded n is n |
| Ids.RequestIdRoundTrip | src/services/storageService.ts:255-256 | the request suffix of `REQ` + padded n is n |
| Ids.MaxPresent | src/pages/Employees.tsx:51-54 | the `reduce` fold yields an upper bound of every parsed suffix, which is 0 or one of them; NaN suffixes are skipped |
| Ids.MaxEmployeeSuffix | src/pages/Employees.tsx:51-54 | the largest numeric employee suffix: bounds every parsable id and is 0 or attained |
| Ids.NextEmployeeIdFresh | src/pages/Employees.tsx:50-56 | the next employee id has a number above every stored employee number, and equals no stored id |
| Ids.NextEmployeeIdOfEmpty | src/pages/Employees.tsx:50-56 | with no employees the next id is EMP001 |
| Ids.NextEmployeeIdAfterGap | src/pages/Employees.tsx:50-56 | after EMP001 and EMP003 comes EMP004: the policy takes the maximum and does not fill gaps |
| Ids.NextRequestIdOfEmpty | src/services/storageService.ts:253 | with no requests the next id is REQ001 |
| Ids.NextRequestIdFresh | src/services/storageService.ts:251-257 | while request numbers rise along the list, the next request id is unused, and appending it keeps them rising |
| Ids.AppendIncreasing | src/services/storageService.ts:230-234 | appending a request numbered above all stored ones keeps the numbers rising |
| Ids.FilterKeepsIncreasing | src/services/storageService.ts:245-249 | deleting requests keeps the numbers rising |
| Ids.LastElementPolicyRepeats | src/services/storageService.ts:254-256 | with [REQ002, REQ001] stored, the next id is REQ002 again: the last-element policy repeats an id once the list is out of order |
| Ids.NextTransferIdFresh | src/pages/Employees.tsx:147 | while the i-th transfer carries number i+1, the count-based id is unused and appending it keeps the numbering |
| Ids.CountPolicyRepeats | src/pages/Employees.tsx:147 | with one stored transfer numbered TRF002, the count-based id repeats TRF002 |
| Storage.AvailableAccountsExact | src/services/storageService.ts:179-184 | an account is available iff no employee refers to its email; the result keeps the account order |
| Storage.CountAppend | src/services/storageService.ts:203-206 | one more employee raises exactly its own department's count, by one |
| Storage.DistinctDepartments | src/services/storageService.ts:209-218 | the departments that have employees, each listed once |
| Storage.CountPositiveIffPresent | src/services/storageService.ts:203-206 | a department's count is positive iff some employee is in it |
| Storage.CountsSumToTotal | src/services/storageService.ts:209-218 | the per-department counts add up to the number of employees |
| Storage.TallyCounts | src/services/storageService.ts:213-215 | one `counts[d] = (counts[d] \|\| 0) + 1` step keeps the tally exact for the employees seen so far |
| Storage.CountsOfComplete | src/services/storageService.ts:209-218 | a complete tally has no zero entry and sums to the number of employees |
| Storage.InitialRequestsIncreasing | src/services/storageService.ts:107-126 | the seed requests REQ001 and REQ002 carry rising numbers |
| Storage.ReplaceKeepsIncreasing | src/services/storageService.ts:236-243 | replacing a request by one with the same id keeps the numbers rising |
| Storage.DeleteRequestSpec | src/services/storageService.ts:245-249 | deleteRequest removes every request with the id, keeps every other request in order and with its multiplicity, and changes nothing when the id is absent |
| Storage.UpdateRequestSpec | src/services/storageService.ts:236-243 | updateRequest replaces only the first request with the id; with no match the list is unchanged |
| Storage.Store.constructor | src/services/storageService.ts:46-52 | a fresh store has all five keys absent |
| Storage.Store.InitializeStorage | src/services/storageService.ts:130-146 | every absent key receives its seed collection; present keys are untouched |
| Storage.Store.SetEmployees | src/services/storageService.ts:154-156 | the employees key now holds exactly the given list |
| Storage.Store.SetDepartments | src/services/storageService.ts:164-166 | the departments key now holds exactly the given list |
| Storage.Store.SetAccounts | src/services/storageService.ts:174-176 | the accounts key now holds exactly the given list |
| Storage.Store.SetTransfers | src/services/storageService.ts:192-194 | the transfers key now holds exactly the given list |
| Storage.Store.SetRequests | src/services/storageService.ts:226-228 | the requests key now holds exactly the given list |
| Storage.Store.AddTransfer | src/services/storageService.ts:196-200 | the transfer is appended; the earlier transfers are untouched |
| Storage.Store.GetAllDepartmentCounts | src/services/storageService.ts:209-218 | the map has one entry per department in use, holding its employee count; no entry is 0, and the entries sum to the number of employees |
| Storage.Store.AddRequest | src/services/storageService.ts:230-234 | the request is appended; the earlier requests are untouched |
| Storage.Store.UpdateRequest | src/services/storageService.ts:236-243 | the first request with the same id is replaced; with none the key is left as it was |
| Storage.Store.DeleteRequest | src/services/storageService.ts:245-249 | the key holds the requests whose id differs, in order |
| Views.FormatItemsSpec | src/pages/Requests.tsx:113-115 | the item summary is "" for no items and `name x quantity` for one item; summaries of two lists join with ", " |
| Views.RequestStatusColor | src/pages/Requests.tsx:117-126 | success iff Approved, error iff Disapproved, warning otherwise |
| Views.WorkflowStatusColor | src/components/WorkflowDialog.tsx:82-92 | success iff Approved or Completed, error iff Disapproved |
| Views.StatusColorsAgree | src/components/EmployeeRequestsDialog.tsx:59-68 | the request-table and workflow colourings agree on every status except Completed |
| Views.EmployeeRequestRowsSpec | src/components/EmployeeRequestsDialog.tsx:47-49 | the history is exactly the employee's requests, newest first; same-date requests stay in stored order |
| Views.ActionsOfferedRows | src/components/EmployeeRequestsDialog.tsx:116-133 | the edit and delete buttons appear on a history row exactly when it is a pending request of the employee, and each such request is listed as often as it is stored |
| Views.WorkflowItemsSpec | src/components/WorkflowDialog.tsx:45-80 | the history has 1 + the employee's transfers + the employee's requests rows, so it is never empty; it is the unsorted rows, newest first, ties in unsorted order |
| Views.UnsortedRowsComeFromEmployee | src/components/WorkflowDialog.tsx:45-79 | before sorting, each row is the onboarding row or one of this employee's transfers or requests, and each of those has its row |
| Views.WorkflowRowsComeFromEmployee | src/components/WorkflowDialog.tsx:45-80 | the same holds for the sorted history |
| Views.SelectorOfferedRows | src/components/WorkflowDialog.tsx:128-140 | the status selector appears on a workflow row exactly when it shows a transfer of the employee, and every transfer of the employee has such a row |
| Views.OnboardingFirstWhenLatest | src/components/WorkflowDialog.tsx:49-59 | when nothing is dated after today, the onboarding row heads the history |
| Views.WorkflowOrderExample | src/components/WorkflowDialog.tsx:49-80 | with today after a transfer, and the transfer after a request, the history reads onboarding, transfer, request |
| Employees.AccountDisplaySpec | src/pages/Employees.tsx:189-192 | the account cell shows the first account with that email by name, or the raw email when there is none |
| Employees.ReplaceEmployeeSpec | src/pages/Employees.tsx:138 | saving an edit replaces every employee with that id in place and keeps the others |
| Employees.TransferMovesOnlyThatEmployee | src/pages/Employees.tsx:158-161 | a transfer sets the new department on the employees with the selected id only |
| Employees.StatusChangeKeepsTransfers | src/pages/Employees.tsx:178-186 | a status change alters only the status of transfers with that id; ids and sequential numbering are kept |
| Employees.EmployeesPage.constructor | src/pages/Employees.tsx:26-38 | the page starts with empty lists, the stored departments, nothing selected and add mode |
| Employees.EmployeesPage.Load | src/pages/Employees.tsx:41-47 | storage is seeded where empty, and the page's copies equal storage; on fresh storage both id disciplines hold |
| Employees.EmployeesPage.HandleAddClick | src/pages/Employees.tsx:58-62 | no employee selected, add mode |
| Employees.EmployeesPage.HandleEditClick | src/pages/Employees.tsx:64-68 | the employee selected, edit mode |
| Employees.EmployeesPage.SelectEmployee | src/pages/Employees.tsx:76-89 | the Transfer, Workflows and Requests buttons select their row |
| Employees.EmployeesPage.CloseDialog | src/pages/Employees.tsx:96-119 | closing any dialog deselects the employee; nothing else changes |
| Employees.EmployeesPage.HandleEditRequest | src/pages/Employees.tsx:121-126 | the request is selected, in edit mode |
| Employees.EmployeesPage.OnNewRequestAsWritten | src/pages/Employees.tsx:336-341 | New Request selects the employee and switches to add mode, and keeps any earlier selected request |
| Employees.EmployeesPage.OnNewRequest | src/pages/Employees.tsx:316-324 | with the request selection cleared, the dialog opens on a new Equipment request for the employee with the store's next request id |
| Employees.EmployeesPage.HandleDeleteClick | src/pages/Employees.tsx:70-74 | every employee with the id is dropped, the rest kept in order; page and storage stay equal |
| Employees.EmployeesPage.HandleSaveEmployee | src/pages/Employees.tsx:133-142 | add mode appends; edit mode replaces by id; page and storage stay equal |
| Employees.EmployeesPage.HandleTransfer | src/pages/Employees.tsx:144-165 | with an employee selected: a pending transfer numbered count+1 is stored and the employee moved; the new number is unused while numbering is sequential; with none selected nothing changes |
| Employees.EmployeesPage.HandleTransferStatusChange | src/pages/Employees.tsx:178-186 | only the status of the transfers with that id changes, in page and storage |
| Employees.EmployeesPage.HandleDeleteRequest | src/pages/Employees.tsx:128-131 | the request is deleted in storage and the page rereads; rising request numbers stay rising |
| Employees.EmployeesPage.HandleSaveRequest | src/pages/Employees.tsx:167-176 | add appends, edit replaces by id, the selection is cleared; a new request with the next id keeps numbers rising |
| Employees.StaleRequestOnNewRequest | src/pages/Employees.tsx:316-324 | after edit, cancel and New Request, the dialog is in add mode showing the old request |
| Employees.DuplicateIdBreaksIncreasing | src/services/storageService.ts:230-234 | appending a request whose id is already stored breaks the rising numbering |
| Requests.SortedByTypeSpec | src/pages/Requests.tsx:46-52 | the table lists every stored request once, types ascending, same-type requests in stored order |
| Requests.EmployeeNameSpec | src/pages/Requests.tsx:108-111 | the employee cell shows `position (account)` of the first employee with the id, or the id |
| Requests.StatusChangeSpec | src/pages/Requests.tsx:77-82 | a status change writes the chosen request, with the new status, over the first stored request with its id and moves nothing else; that is a change of status alone exactly when the two agree on every other field, which holds when ids rise along the list and the chosen request is stored; an unknown id is not in the list |
| Requests.RequestsPage.constructor | src/pages/Requests.tsx:31-40 | empty lists, no request selected, add mode |
| Requests.RequestsPage.LoadData | src/pages/Requests.tsx:46-52 | the page holds the stored requests sorted by type, and the stored employees |
| Requests.RequestsPage.HandleAddClick | src/pages/Requests.tsx:58-62 | no request selected, add mode |
| Requests.RequestsPage.HandleEditClick | src/pages/Requests.tsx:64-69 | the request selected, edit mode |
| Requests.RequestsPage.HandleDialogClose | src/pages/Requests.tsx:94-97 | the selection is cleared |
| Requests.RequestsPage.HandleDeleteClick | src/pages/Requests.tsx:71-75 | requests with the id are deleted in storage; the table and the employee list are reloaded from storage |
| Requests.RequestsPage.HandleStatusChange | src/pages/Requests.tsx:77-82 | the chosen request with the new status replaces the first stored request with that id; the table and the employee list are reloaded from storage |
| Requests.RequestsPage.HandleSaveRequest | src/pages/Requests.tsx:99-106 | add appends, edit replaces by id; the table and the employee list are reloaded from storage |
| Departments.DisplayedCountIsEmployeeCount | src/pages/Departments.tsx:107 | over the map getAllDepartmentCounts builds, `counts[name] \|\| 0` is the department's employee count |
| Departments.EditDepartmentSpec | src/pages/Departments.tsx:67-69 | editing replaces the departments named like the edited one; others are kept |
| Departments.DepartmentsPage.constructor | src/pages/Departments.tsx:21-26 | empty list and counts, nothing selected, add mode |
| Departments.DepartmentsPage.Load | src/pages/Departments.tsx:29-35 | storage is seeded where empty; the page holds the departments and exact counts |
| Departments.DepartmentsPage.HandleStorageChange | src/pages/Departments.tsx:77-80 | after rereading, every department's displayed count is its number of employees |
| Departments.DepartmentsPage.HandleAddClick | src/pages/Departments.tsx:37-41 | no department selected, add mode |
| Departments.DepartmentsPage.HandleEditClick | src/pages/Departments.tsx:43-47 | the department selected, edit mode |
| Departments.DepartmentsPage.HandleDialogClose | src/pages/Departments.tsx:57-60 | the selection is cleared |
| Departments.DepartmentsPage.HandleDeleteClick | src/pages/Departments.tsx:49-55 | departments with the name are dropped, the rest kept in order, in page and storage |
| Departments.DepartmentsPage.HandleSaveDepartment | src/pages/Departments.tsx:62-73 | add appends; edit replaces the departments named like the selected one; storage follows |
| Accounts.EditAccountSpec | src/pages/Accounts.tsx:62 | editing replaces the accounts with the selected account's email; others are kept |
| Accounts.AccountsPage.constructor | src/pages/Accounts.tsx:22-26 | empty list, nothing selected, add mode |
| Accounts.AccountsPage.Load | src/pages/Accounts.tsx:29-32 | storage is seeded where empty; the page holds the stored accounts |
| Accounts.AccountsPage.HandleAddClick | src/pages/Accounts.tsx:34-38 | no account selected, add mode |
| Accounts.AccountsPage.HandleEditClick | src/pages/Accounts.tsx:40-44 | the account selected, edit mode |
| Accounts.AccountsPage.HandleDialogClose | src/pages/Accounts.tsx:52-55 | the selection is cleared |
| Accounts.AccountsPage.HandleDeleteClick | src/pages/Accounts.tsx:46-50 | accounts with the email are dropped, the rest kept in order, in page and storage |
| Accounts.AccountsPage.HandleSaveAccount | src/pages/Accounts.tsx:57-66 | add appends; edit replaces by the selected email; storage follows |
| DepartmentContext.AdjustEmployeeCountSpec | src/context/DepartmentContext.tsx:46-54 | only the named department's count moves, by the delta but never below 0; names, descriptions, order and the other departments are kept |
| DepartmentContext.DepartmentProvider.constructor | src/context/DepartmentContext.tsx:25-44 | the context starts with the three seed departments, counts 1, 1, 0 |
| DepartmentContext.DepartmentProvider.SetDepartments | src/context/DepartmentContext.tsx:44 | the exposed setter replaces the list; the counts stay non-negative only if the new list's are |
| DepartmentContext.DepartmentProvider.UpdateEmployeeCount | src/context/DepartmentContext.tsx:46-54 | the list becomes the adjusted list; non-negative counts stay non-negative |
| TransferDialog.OfferedDepartmentsSpec | src/components/TransferDialog.tsx:53-55 | a department is offered iff its name differs from the current one, in order |
| TransferDialog.TransferForm.constructor | src/components/TransferDialog.tsx:31 | the selection starts at the current department, so Transfer starts disabled |
| TransferDialog.TransferForm.HandleChange | src/components/TransferDialog.tsx:33-35 | choosing an offered department selects it and enables Transfer |
| TransferDialog.TransferForm.HandleSubmit | src/components/TransferDialog.tsx:37-40 | onTransfer receives the selection exactly when Transfer is enabled; that selection is an existing department other than the current one |
| AccountDialog.SetField | src/components/AccountDialog.tsx:87-90 | the named field takes the value; the other fields are unchanged |
| AccountDialog.ClearError | src/components/AccountDialog.tsx:93 | the field's error is cleared; the others are unchanged |
| AccountDialog.PlainPrefixLength | src/components/AccountDialog.tsx:69 | the leading `[^\s@]+` run reaches to the first non-plain character |
| AccountDialog.EmailPatternSound | src/components/AccountDialog.tsx:69 | every string the pattern test accepts has the shape local@label.rest |
| AccountDialog.EmailPatternComplete | src/components/AccountDialog.tsx:69 | every string of that shape is accepted |
| AccountDialog.EmailPatternIsShape | src/components/AccountDialog.tsx:69 | the pattern test accepts exactly the strings of that shape |
| AccountDialog.CheckEmail | src/components/AccountDialog.tsx:67-77 | the email message is the first that applies: required, invalid format, then (add mode only) already exists; none iff the email is acceptable |
| AccountDialog.CheckAccount | src/components/AccountDialog.tsx:60-83 | one message per empty field plus the email message; no messages iff the account is valid |
| AccountDialog.InitialAccountData | src/components/AccountDialog.tsx:42-49 | a new form is empty with role User and status Active; an account with role and status set is loaded as is |
| AccountDialog.AccountForm.constructor | src/components/AccountDialog.tsx:42-51 | the form starts from the initial data with no errors |
| AccountDialog.AccountForm.Reset | src/components/AccountDialog.tsx:53-58 | a given account is loaded; otherwise the old form data stay; errors cleared |
| AccountDialog.AccountForm.HandleChange | src/components/AccountDialog.tsx:85-107 | the field is set; its error is cleared if shown; other errors are untouched |
| AccountDialog.AccountForm.ValidateForm | src/components/AccountDialog.tsx:60-83 | true iff the account is valid iff no error is recorded |
| AccountDialog.AccountForm.HandleSubmit | src/components/AccountDialog.tsx:109-114 | the form data reach onSave exactly when valid |
| EmployeeDialog.SetField | src/components/EmployeeDialog.tsx:78-81 | the named field takes the value; the id and other fields are unchanged |
| EmployeeDialog.ClearError | src/components/EmployeeDialog.tsx:84 | the field's error is cleared; the others are unchanged |
| EmployeeDialog.CheckEmployee | src/components/EmployeeDialog.tsx:62-74 | a field has a message iff it is empty; no messages iff all fields are filled |
| EmployeeDialog.InitialEmployeeData | src/components/EmployeeDialog.tsx:39-46 | a new employee gets the next id, today as hire date, status Active; an edited one keeps its id and fields |
| EmployeeDialog.EmployeeForm.constructor | src/components/EmployeeDialog.tsx:39-48 | the form starts from the initial data with no errors |
| EmployeeDialog.EmployeeForm.Reset | src/components/EmployeeDialog.tsx:50-60 | the edited employee is loaded; otherwise the old data get the next id; errors cleared |
| EmployeeDialog.EmployeeForm.HandleChange | src/components/EmployeeDialog.tsx:76-98 | the field is set; the id is kept; its error is cleared if shown; others untouched |
| EmployeeDialog.EmployeeForm.ValidateForm | src/components/EmployeeDialog.tsx:62-74 | true iff every field is filled iff no error is recorded |
| EmployeeDialog.EmployeeForm.HandleSubmit | src/components/EmployeeDialog.tsx:100-105 | the form data reach onSave exactly when valid |
| DepartmentDialog.CheckDepartment | src/components/DepartmentDialog.tsx:45-54 | a message for an empty name and for an empty description; none iff both are filled |
| DepartmentDialog.DepartmentForm.constructor | src/components/DepartmentDialog.tsx:28-36 | the form starts from the given department, or empty, with no errors |
| DepartmentDialog.DepartmentForm.Reset | src/components/DepartmentDialog.tsx:38-43 | a given department is loaded; otherwise the old data stay; errors cleared |
| DepartmentDialog.DepartmentForm.HandleInputChange | src/components/DepartmentDialog.tsx:56-66 | the field is set; the other field and its error are untouched; its own error is cleared if shown |
| DepartmentDialog.DepartmentForm.ValidateForm | src/components/DepartmentDialog.tsx:45-54 | true iff both fields are filled iff no error is recorded |
| DepartmentDialog.DepartmentForm.HandleSubmit | src/components/DepartmentDialog.tsx:68-73 | the form data reach onSave exactly when valid |
| RequestDialog.SetField | src/components/RequestDialog.tsx:102-105 | the named field takes the value; id, items, status and other fields are unchanged |
| RequestDialog.ClearError | src/components/RequestDialog.tsx:107-109 | the field's error is cleared; other field errors and the item errors are unchanged |
| RequestDialog.InitialRequestData | src/components/RequestDialog.tsx:51-59 | a new form is an Equipment request with the next id, today's date, one empty item, Pending; a given request's items and description are loaded |
| RequestDialog.CheckItems | src/components/RequestDialog.tsx:89-93 | the sparse item errors hold a message exactly at the items with an empty name; the array is empty iff every item has a name |
| RequestDialog.CheckRequest | src/components/RequestDialog.tsx:77-98 | one message per empty field; item errors shown exactly at empty names; no errors iff the request is valid |
| RequestDialog.StepQuantity | src/components/RequestDialog.tsx:169 | a quantity step adds or subtracts one but never goes below 1 |
| RequestDialog.RemoveAt | src/components/RequestDialog.tsx:151 | removing an index shifts the later items down by one and keeps the earlier ones |
| RequestDialog.ClearItemError | src/components/RequestDialog.tsx:135-140 | the item's error is no longer shown; every other slot is unchanged |
| RequestDialog.RemoveItemErrorsAligned | src/components/RequestDialog.tsx:150-163 | after removing an item, each remaining item keeps the error it had; errors stay next to empty names |
| RequestDialog.RemoveItemMisalignsErrors | src/components/RequestDialog.tsx:156-162 | the source's error update misplaces errors in two concrete cases, where the corrected update does not |
| RequestDialog.RequestForm.constructor | src/components/RequestDialog.tsx:51-63 | the form starts from the initial data with no errors |
| RequestDialog.RequestForm.Reset | src/components/RequestDialog.tsx:65-75 | a given request is loaded; otherwise the old data get the next id; errors cleared |
| RequestDialog.RequestForm.HandleChange | src/components/RequestDialog.tsx:100-122 | the field is set; its error is cleared if shown; other errors are untouched |
| RequestDialog.RequestForm.HandleItemChange | src/components/RequestDialog.tsx:124-141 | one field of one item changes, and that item's error is cleared; item errors stay next to empty names |
| RequestDialog.RequestForm.HandleAddItem | src/components/RequestDialog.tsx:143-148 | one empty item of quantity 1 is appended; errors untouched |
| RequestDialog.RequestForm.HandleRemoveItem | src/components/RequestDialog.tsx:150-163 | the item is removed together with its error slot; at least one item remains; errors stay aligned |
| RequestDialog.RequestForm.HandleQuantityChange | src/components/RequestDialog.tsx:165-175 | one item's quantity steps, staying at least 1 |
| RequestDialog.RequestForm.ValidateForm | src/components/RequestDialog.tsx:77-98 | true iff the request is valid iff no error is recorded |
| RequestDialog.RequestForm.HandleSubmit | src/components/RequestDialog.tsx:177-182 | the form data reach onSave exactly when valid |

## Left out

- The REST variant under `frontend/` and `backend/` (Express controllers, a MySQL pool, API services) is not part of this model. Its configuration is neither read nor reproduced.
- Rendering, routing (`src/App.tsx`, `src/components/Navbar.tsx`) and the dialog `open` flags are left out. So are the action-menu anchor and the per-table `page` state. A page is the argument of `Lists.PageRows`.
- `handleNewRequestClick` (`src/pages/Employees.tsx:91-94`) is never attached to any button, so it is not modelled.
- The registration and removal of the `storage` event listener (`src/pages/Departments.tsx:82-83`) are left out. Only the handler, `HandleStorageChange`, is modelled. The browser fires that event only for writes made by other tabs.
- Dates: `new Date().toISOString().split('T')[0]` is the parameter `today`, and `new Date(s).getTime()` is the integer key `dateKey`. An unparsable date, which gives NaN and leaves the comparator's order unspecified, is not modelled.
- `localeCompare` is the integer ranking `typeRank`. The model assumes it is a consistent total preorder on type strings.
- `JSON.stringify`/`JSON.parse` are the identity. A stored value that is not valid JSON, and the exception it would raise, are not modelled.
- `getAllDepartmentCounts` builds a plain object. Department names such as `constructor` or `__proto__`, which collide with inherited properties, are not modelled: the model uses a map.
- TypeScript's string-literal unions (statuses, roles, request types) are strings, as they are at run time.
- Unchecked casts such as `name as keyof Account` are field selectors of a closed datatype. An input whose `name` attribute is not a field is not modelled.
- Integers are unbounded. No JavaScript number rounding occurs at the sizes these identifiers reach.
- AccountDialog.InitialAccountData: states the fresh-form case and the loaded-account case with role and status set. The `|| 'User'` / `|| 'Active'` defaults for a loaded account with an empty role or status are in the definition only.
- EmployeeDialog.InitialEmployeeData: states the fresh-form case and the fields kept from an edited employee with an id. The `||` fallbacks for other empty fields are in the definition only.
- RequestDialog.InitialRequestData: states the fresh-form case and the items and description of a given request. The `||` fallbacks of the other fields are in the definition only.
- Text.ParseInt: reads only leading decimal digits. JavaScript's `parseInt` also skips leading white space, accepts a `+` or `-` sign and reads a `0x` prefix as hexadecimal; the app only ever writes ids of the form prefix plus zero-padded decimal digits, so those forms reach it only through data written by something else.
- Text.RemoveFirst: states only the case the app uses, an id that starts with the prefix. The search for a later occurrence is in the definition only.
- TransferDialog.TransferForm.HandleChange: requires the choice to come from the menu of offered departments, as the rendered `Select` guarantees.

## Findings

| source | as written | input that shows it | evidently intended | confidence | as-written member | corrected member |
|---|---|---|---|---|---|---|
| src/components/RequestDialog.tsx:150-163 | `handleRemoveItem` filters the item errors only when the removed item shows an error. `filter` also drops the holes of the sparse error array, so later errors shift onto the wrong items. | Items `a`, "", `b`, "" with errors at 1 and 3, remove item 1: the single remaining error lands on item 0 (`a`). Items `a`, `b`, "" with an error at 2, remove item 0: the error stays at index 2, past the end, and item 1 shows none. | Removing an item removes its error slot, holes included, so each remaining item keeps its own error. | not executed | RequestDialog.RemoveItemErrorsAsWritten, RequestDialog.RemoveItemMisalignsErrors | RequestDialog.RemoveItemErrors, RequestDialog.RemoveItemErrorsAligned, RequestDialog.RequestForm.HandleRemoveItem |
| src/pages/Employees.tsx:336-341 | The history dialog's New Request handler sets add mode but does not clear `selectedRequest`. The request dialog is then given the stale request (lines 316-324). | Edit a stored request from the history, cancel, reopen the history and press New Request. The dialog opens in add mode on the old request, and saving appends a second request with the same id. | New Request opens on a fresh request carrying the store's next id. | not executed | Employees.EmployeesPage.OnNewRequestAsWritten, Employees.StaleRequestOnNewRequest, Employees.DuplicateIdBreaksIncreasing | Employees.EmployeesPage.OnNewRequest |
