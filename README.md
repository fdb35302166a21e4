# Visitor admission: a Dafny model

This project models the core of a visitor management system. Visitors
register at reception and name a host employee. The host approves or rejects
the visit. A host may also pre-approve a visitor for a time window, with a
daily visit cap. Within that window, looking up the visitor approves them
automatically and issues a QR badge. The model covers:

- the session database: visitors, employees, approvals and pre-approvals,
  each a table with its own id counter;
- the repositories and services over those tables;
- the HTTP routes for visitors, approvals and pre-approvals;
- the UTC normalisation of the pre-approval request;
- the `Authorization: Bearer` dependency;
- the 96 quarter-hour choices of the date-time picker;
- the two counters on the host dashboard.

The database is one `Db.Database` object whose tables are sequence fields.
Every insert takes the next id from the table's counter, which models the
table's id sequence: an id once drawn is never issued again, even when the
transaction that drew it is rolled back. Every state-changing operation is a method that `modifies` the
database and states the whole new state. Each method also keeps `Valid()`:
ids stay below their counters, and employee ids and e-mails stay unique.
Queries are functions over the tables:

- `filter(...).first()` is `Seqs.First` or `Seqs.FirstIndex`. Without an
  `ORDER BY` the database may return any matching row; the model always takes
  the earliest stored one (see "Left out");
- `filter(...).all()` is `Seqs.Filter`;
- "latest by time" is `Admission.LatestRequested` or
  `Admission.LatestApproved`.

Time is whole seconds since the epoch, and a date is `t / 86400`. A request
sees one `now`. The lookup's auto-approval logic is split into two layers:

- `Admission.Decide` is a pure decision function, with lemmas about the daily
  cap and about when the lookup stops escalating;
- `VisitorRoutes.GetVisitor` performs the writes `Decide` calls for.

The model follows the code as written; in particular:

- The lookup (`get_visitor`) never updates the visitor's PENDING approval. It
  inserts a separate APPROVED record and leaves the PENDING one as it was.
- The lookup's QR badge encodes the bare id and is uploaded as
  `visitor_badge`. A manual approval encodes `visitor:<id>` and uploads it as
  `badge_<id>`.
- `update_status` accepts any of the three statuses on any approval, whatever
  its current state. There is no PENDING-only guard. A change back to PENDING
  keeps the old decision time.
- Registration checks the host twice, differently:
  - the route matches name and department with case-insensitive `ILIKE`
    after trimming;
  - the service then looks the host up by exact name.

  The visitor row is stored before the second check. So a host found only by
  the first check leaves a stored visitor and an error.
- Nothing checks that a pre-approval window starts before it ends.
- Listing an employee's pre-approvals is the service query, returned as it is.
- An explicit `null` daily cap is stored as the column default 5, as an
  omitted one is, because the ORM leaves a None value out of the insert
  when its column has a default. `PreApprovalSchema.ParsePreApprovalCreate`
  gives both the cap 5.
- Filtering approvals by an unknown status is a database error. It is not an
  empty list.

## Model

| member | source | states |
|---|---|---|
| Models.ParseStatus | backend/app/models.py:22-26 | a name parses to a status exactly when it is that status's name |
| Models.ParseStatusAccepts | backend/app/services/approval_service.py:64-66 | exactly "PENDING", "APPROVED" and "REJECTED" are accepted, and every status's own name parses back to it |
| Db.Database.constructor | backend/app/models.py:57-65 | a fresh database holds the given staff, whose ids and e-mails are unique, and no visitors, approvals or grants; every id counter starts at 1; the database is valid |
| Text.Strip | backend/app/api/routes_visitor.py:118-119 | the result is no longer than the text and neither starts nor ends with whitespace |
| Text.StripSurrounded | backend/app/api/routes_preapproval.py:48 | stripping whitespace around a core that has no outer whitespace gives back exactly that core |
| Text.NatToStringRoundTrip | backend/app/services/approval_service.py:73 | the decimal rendering of a number reads back as the same number |
| Text.PadStart | frontend/components/datetime-picker.tsx:29-31 | the result is at least `width` long, ends with the text and is filled only with the pad character before it |
| Text.LikeLiteral | backend/app/api/routes_visitor.py:118-119 | a LIKE pattern without wildcards or escapes matches exactly the equal text |
| Text.ILikeLiteral | backend/app/api/routes_visitor.py:118-119 | an ILIKE pattern without wildcards or escapes matches exactly the texts equal to it ignoring the case of A-Z |
| EmployeeRepo.GetEmployeeByName | backend/app/repos/employee_repo.py:17-27 | the result is an employee with exactly that name, and None only when no employee has that name |
| EmployeeRepo.ExactNameOnly | backend/app/repos/employee_repo.py:27 | the lookup is exact: "Alice" is found, but "alice" and " Alice" are not |
| VisitorRepo.CreateVisitor | backend/app/repos/visitor_repo.py:23-37 | the new visitor gets the next id, the request's fields, no badge, no check-out and check-in at `now`; it is appended; nothing else changes |
| VisitorRepo.GetVisitorById | backend/app/repos/visitor_repo.py:39-49 | the result is a stored visitor with that id, and None only when no stored visitor has it |
| VisitorRepo.CreatedVisitorIsFound | backend/app/repos/visitor_repo.py:23-49 | after a visitor is stored under a fresh id, a lookup by that id finds it and lookups of other ids are unaffected |
| ApprovalRepo.CreateApproval | backend/app/repos/approval_repo.py:18-26 | the new approval gets the next id, is PENDING, has no decision time and is requested now; it is appended; nothing else changes |
| ApprovalRepo.GetPendingApprovalsForEmployee | backend/app/repos/approval_repo.py:28-35 | an approval is listed exactly when it is stored, assigned to the employee and PENDING |
| ApprovalRepo.WithStatus | backend/app/repos/approval_repo.py:44-46 | the status is replaced; APPROVED and REJECTED stamp the decision time with now, and PENDING keeps the old one; identity and request time are kept |
| ApprovalRepo.UpdateStatus | backend/app/repos/approval_repo.py:37-49 | an unknown id gives None and changes nothing; otherwise the first approval with that id is replaced by its updated form, which is returned; other tables are untouched |
| ApprovalRepo.WithStatusConsistency | backend/app/repos/approval_repo.py:44-46 | a terminal decision always carries a decision time; moving a decided approval back to PENDING leaves a PENDING record with a decision time |
| PreApprovalRepo.CreatePreApproval | backend/app/repos/preapproval_repo.py:17-48 | the new grant gets the next id and exactly the given window and cap; it is appended; nothing else changes |
| PreApprovalRepo.GetPreApprovalsForEmployee | backend/app/repos/preapproval_repo.py:50-64 | a grant is listed exactly when it is stored and was issued by the employee |
| PreApprovalRepo.NewGrantListed | backend/app/repos/preapproval_repo.py:17-64 | storing a grant extends the issuing employee's list by that grant, at the end, and leaves every other employee's list as it was |
| ApprovalService.CreateApprovalRequest | backend/app/services/approval_service.py:26-38 | a PENDING request for the visitor and employee is appended under the next id; nothing else changes |
| ApprovalService.GetPendingForEmployee | backend/app/services/approval_service.py:40-51 | the service returns the repository's list, and every entry is PENDING and assigned to the employee |
| ApprovalService.QrPayloadNamesVisitor | backend/app/services/approval_service.py:73-74 | the manual badge's QR text is "visitor:" followed by digits that read back as the visitor id, so different visitors get different payloads |
| ApprovalService.ProcessApproval | backend/app/services/approval_service.py:53-89 | a status outside the enum is an error that changes nothing; an unknown id gives None; otherwise the approval is updated, and for APPROVED an existing visitor's badge is overwritten with the upload result, which may be None |
| PreApprovalService.ScheduleVisit | backend/app/services/preapproval_service.py:21-52 | the grant is stored as requested under the next id; no other table changes |
| PreApprovalService.ListPreApprovals | backend/app/services/preapproval_service.py:54-65 | the list is exactly the grants the employee issued |
| VisitorService.RegisterVisitor | backend/app/services/visitor_service.py:25-73 | the visitor is always stored first, with the uploaded photo URL when a photo was sent; an exact-name host then gets a PENDING request, and with no such host the result is the "Host employee not found" error while the visitor stays stored |
| VisitorService.FetchVisitor | backend/app/services/visitor_service.py:75-86 | the lookup returns the repository's answer, whose id is the one asked for |
| Admission.ActiveGrant | backend/app/api/routes_visitor.py:49-57 | the result is one of the visitor's grants whose window contains now, and None only when no grant of the visitor is active |
| Admission.VisitsToday | backend/app/api/routes_visitor.py:60-69 | the count is bounded by the number of approvals and is zero exactly when no APPROVED record of the visitor was decided today |
| Admission.VisitsTodayAppend | backend/app/api/routes_visitor.py:60-69 | one more record adds one to today's count exactly when it is an APPROVED record of the visitor decided today, so the count is the number of such records |
| Admission.LatestRequested | backend/app/api/routes_visitor.py:35-40 | the result is one of the visitor's records with no later request time among them, and None only when the visitor has no records |
| Admission.LatestApproved | backend/app/api/routes_visitor.py:99-104 | the result is an APPROVED record of the visitor with no later decision among them, where an undecided record sorts last; it is None only when there is no APPROVED record |
| Admission.Decide | backend/app/api/routes_visitor.py:42-73 | the lookup settles exactly when the latest record exists and is not PENDING; it auto-approves only under an active grant with today's count below that grant's cap, and reports the cap as reached otherwise |
| Admission.AutoApproval | backend/app/api/routes_visitor.py:75-81 | the automatic record is APPROVED, for the visitor, on behalf of the granting employee, requested and decided now |
| Admission.CapBoundary | backend/app/api/routes_visitor.py:73 | with one slot left the lookup approves, and with none left it reports the cap reached: the comparison is strict |
| Admission.AutoApprovalUsesOneSlot | backend/app/api/routes_visitor.py:60-82 | an auto-approval raises today's count by exactly one and never past the grant's cap |
| Admission.RepeatLookupAfterLastSlot | backend/app/api/routes_visitor.py:60-82 | after the last slot of the day is taken, a repeated lookup at the same time does not approve again |
| Admission.LatestRequestedAppend | backend/app/api/routes_visitor.py:35-45 | a record requested after all of the visitor's earlier ones becomes the latest |
| Admission.AutoApprovalSettles | backend/app/api/routes_visitor.py:35-82 | once auto-approved, with earlier records requested before now, every later lookup settles without writing |
| VisitorRoutes.GetVisitor | backend/app/api/routes_visitor.py:27-110 | an unknown id is a 404 and changes nothing, and a known visitor always gets an answer; when `Decide` auto-approves and the commit succeeds, one APPROVED record is appended and a badgeless visitor is badged; when the commit fails, only the approval id is used up; otherwise nothing changes; existing records are never altered; the answer is the stored visitor and its latest APPROVED record |
| VisitorRoutes.CommitAutoApproval | backend/app/api/routes_visitor.py:74-96 | the insert always uses up one approval id; on commit the record is appended and a visitor without a truthy badge gets a QR badge and check-in now; on failure both writes are rolled back; the returned visitor is the stored one |
| VisitorRoutes.FindHost | backend/app/api/routes_visitor.py:115-122 | the host found is a stored employee whose name and department match the trimmed request fields under ILIKE, and None exactly when no employee matches both |
| VisitorRoutes.HostCheckIgnoresCase | backend/app/api/routes_visitor.py:118-119 | for a name and department without wildcards or escapes, an employee matches exactly when its name and department equal the trimmed request values, ignoring the case of A-Z |
| VisitorRoutes.RegisterVisitor | backend/app/api/routes_visitor.py:113-139 | no host by ILIKE is a 400 with nothing stored; otherwise the service runs, and each stored row takes the next id of its table, whose counter advances by one; the host is notified exactly when the visit was registered and the host's e-mail is non-empty |
| VisitorRoutes.CheckoutVisitor | backend/app/api/routes_visitor.py:141-156 | an unknown id is a 404 and a visitor already checked out is a 400, both changing nothing; otherwise only that visitor's check-out becomes now |
| ApprovalRoutes.GetApprovals | backend/app/api/routes_approval.py:25-40 | without a (non-empty) filter, the employee's approvals are listed; a filter is upper-cased and must name a status, else the query fails; an approval is listed exactly when it is the employee's and has that status |
| ApprovalRoutes.StatusFilterIgnoresCase | backend/app/api/routes_approval.py:37-38 | "pending" and "Approved" filter exactly as "PENDING" and "APPROVED" do |
| ApprovalRoutes.StatusFilterNarrows | backend/app/api/routes_approval.py:35-40 | a status filter never lists more than the unfiltered query |
| ApprovalRoutes.UpdateApprovalStatus | backend/app/api/routes_approval.py:43-62 | an unknown approval is a 404 that changes nothing; otherwise the approval takes the action's status and decision stamp, and an approval badges an existing visitor |
| PreApprovalSchema.ToUtc | backend/app/schemas/preapproval.py:28-30 | the result is in UTC and denotes the same instant; a naive or UTC value keeps its wall time |
| PreApprovalSchema.EnsureUtc | backend/app/schemas/preapproval.py:20-31 | text fails exactly when it does not parse, and otherwise becomes the same instant in UTC; a non-text value passes unchanged |
| PreApprovalSchema.EnsureUtcIdempotent | backend/app/schemas/preapproval.py:20-31 | validating an already validated value changes nothing |
| PreApprovalSchema.ParsePreApprovalCreate | backend/app/schemas/preapproval.py:10-31 | the request is valid exactly when both window ends validate; it then carries the two UTC ends and the given cap, or 5 when the cap is omitted |
| PreApprovalSchema.InvertedWindowAccepted | backend/app/schemas/preapproval.py:10-18 | a window that ends before it starts is accepted, with the default cap of 5 |
| PreApprovalRoutes.CheckRequest | backend/app/api/routes_preapproval.py:37-49 | the checks run in order, each with its own error: no `id` claim, another employee's id (403), unknown visitor (404), unknown current employee (an attribute error on None), then not the assigned host (403); the request passes exactly when the caller is the employee, the visitor and employee exist, and the names match after trimming and lower-casing |
| PreApprovalRoutes.NoImpersonation | backend/app/api/routes_preapproval.py:37-39 | a caller whose id differs from the request's employee id is refused with 403, whatever else holds |
| PreApprovalRoutes.HostCheckTolerant | backend/app/api/routes_preapproval.py:47-49 | " alice " is the assigned host "Alice": case and surrounding spaces are ignored |
| PreApprovalRoutes.CreatePreApproval | backend/app/api/routes_preapproval.py:22-54 | a failed check is its error with nothing stored; otherwise the grant is stored with the window ends as UTC instants and the requested cap |
| AuthDep.Partition | backend/app/dependencies/auth_dep.py:22 | the three parts concatenate back to the header; the first has no space; the separator is a single space or empty, and empty only with an empty rest |
| AuthDep.PartitionAtFirstSpace | backend/app/dependencies/auth_dep.py:22 | the split is at the first space, and later spaces stay in the token |
| AuthDep.GetCurrentUser | backend/app/dependencies/auth_dep.py:9-31 | a scheme other than bearer in any case, or an empty token, is 401 "Invalid authorization schema"; an empty or failed decode is 401 "Invalid or expired token"; otherwise the user is the decoded, non-empty payload |
| AuthDep.BearerAccepted | backend/app/dependencies/auth_dep.py:22-31 | "Bearer", "bearer" and "BEARER" headers pass the token intact to the decoder, and its payload is the user |
| AuthDep.NoSpaceRefused | backend/app/dependencies/auth_dep.py:22-25 | a header without a space is refused as an invalid schema before decoding |
| TimeSlots.Slots | frontend/components/datetime-picker.tsx:26-32 | there are exactly 96 slots |
| TimeSlots.TwoDigitsOf | frontend/components/datetime-picker.tsx:29-31 | below 100, the padded rendering is exactly the tens digit and then the units digit |
| TimeSlots.SlotShape | frontend/components/datetime-picker.tsx:26-32 | every slot is "HH:MM" naming hour `i / 4` and minute `(i % 4) * 15` |
| TimeSlots.SlotMinutes | frontend/components/datetime-picker.tsx:26-32 | slot `i` is `15 * i` minutes after midnight |
| TimeSlots.SlotsIncrease | frontend/components/datetime-picker.tsx:26-32 | the slots strictly increase through the day, so no two are equal |
| TimeSlots.FirstSlot | frontend/components/datetime-picker.tsx:26-32 | the first slot is "00:00" |
| TimeSlots.LastSlot | frontend/components/datetime-picker.tsx:26-32 | the last slot is "23:45" |
| TimeSlots.DefaultSlot | frontend/components/datetime-picker.tsx:24-32 | slot 40 is the picker's initial time "10:00" |
| TimeSlots.DefaultOffered | frontend/components/datetime-picker.tsx:24-32 | the initial time is one of the offered slots |
| Dashboard.Slice10 | frontend/app/employee/dashboard/page.tsx:31 | the result is the first ten characters of the text, or the whole of a shorter text |
| Dashboard.ApprovedCount | frontend/app/employee/dashboard/page.tsx:52 | the count is bounded by the number of rows and is zero exactly when no row is APPROVED |
| Dashboard.TodayApproved | frontend/app/employee/dashboard/page.tsx:53-55 | the count is bounded by the number of rows and is zero exactly when no APPROVED row has a decision time dated today |
| Dashboard.ApprovedCountAppend | frontend/app/employee/dashboard/page.tsx:52 | one more row adds one to `approvedCount` exactly when it is APPROVED, so the counter is the number of APPROVED rows |
| Dashboard.TodayApprovedAppend | frontend/app/employee/dashboard/page.tsx:53-55 | one more row adds one to `todayApproved` exactly when it is APPROVED with a decision time dated today, so the counter is the number of such rows |
| Dashboard.TodayWithinApproved | frontend/app/employee/dashboard/page.tsx:52-55 | today's count never exceeds the approved count |
| Dashboard.UndecidedNeverToday | frontend/app/employee/dashboard/page.tsx:53-55 | a row without a decision time never changes today's count |
| Dashboard.DecidedTodayCountsOnce | frontend/app/employee/dashboard/page.tsx:52-55 | an APPROVED row decided today adds exactly one to each counter |

## Left out

- Photo upload, QR generation and upload, e-mail delivery and JWT decoding are
  foreign calls. They are function parameters (`photoUpload`, `qrUpload`,
  `decode`). The notification is returned as a `Notice` value, not sent.
- The database commit in the lookup can fail. That is a `commitFails`
  parameter; other commits always succeed.
- The clock is the `now` parameter. A request uses one instant, where the
  source reads the clock several times in one request.
- Time zones are fixed offsets in seconds, and the date of a timestamp is its
  UTC day. ISO 8601 parsing is the `fromIso` parameter.
- Concurrent requests and transaction isolation are not modelled. Each
  operation runs alone against the database.
- PreApprovalSchema.EnsureUtc: a naive date-time that arrives as a non-text
  value is passed on unchanged. The database reads such a value in the
  session's time zone; the model reads it as UTC, which agrees only when the
  session's time zone is UTC.
- Admission.AutoApprovalSettles: the model assumes the database session's
  time zone is UTC. That matters in three places. The lookup compares naive
  UTC clock readings with the grant's window. It counts today's visits by
  the UTC date. And it orders records by request time, where its own record
  is stamped with a naive UTC reading but a registration's PENDING record is
  stamped by the database clock. In a session zone east of UTC, a new
  APPROVED record can sort before a PENDING one made shortly earlier, so a
  later lookup escalates again, up to the cap. The lemma's `requires` that
  earlier records were requested before `now` excludes that case.
- Response-model validation of URLs and field types by the web framework,
  logging, and the CORS and router setup.
- Admission.LatestRequested: when two of the visitor's records share the
  latest request time, the database may return either. The model takes the
  earliest stored one.
- Admission.LatestApproved: when two APPROVED records share the latest
  decision time, the database may return either. The model takes the
  earliest stored one.
- Admission.ActiveGrant: `.first()` has no `ORDER BY`, so with several grants
  active at once the database may return any of them, and with different caps
  the lookup may apply either cap. The model always takes the earliest stored
  grant.
- EmployeeRepo.GetEmployeeByName: with several employees of the same name the
  database may return any of them. The model takes the earliest stored one.
- VisitorRoutes.FindHost: with several matching employees the database may
  return any of them; the model takes the earliest stored one.
- VisitorRoutes.FindHost: letters outside A-Z are not case-folded, while
  `ILIKE` folds them by the database's locale ("Émile" matches "émile").
- VisitorRoutes.FindHost: a name or department ending in a lone backslash is
  an invalid pattern for the database, so the request fails with a server
  error. The model matches the backslash literally and answers as for any
  other name.
- VisitorRoutes.CommitAutoApproval: an approval id is used up whenever the
  commit fails. A failure before the insert reaches the database would leave
  the sequence where it was; the model does not separate that case.
- Text.ILikeLiteral: the case folding covers A-Z only, not the other letters
  the database's locale folds.
- VisitorRoutes.HostCheckIgnoresCase: "ignoring letter case" holds for A-Z
  only, for the reason given for Text.ILikeLiteral.
- PreApprovalRoutes.CheckRequest: host names are lower-cased for A-Z only.
  Python's `str.lower` folds every Unicode letter, so a visitor whose host is
  "émile" passes the source's check for the employee "Émile" but gets the
  403 in the model.
- ApprovalRoutes.GetApprovals: the status filter is upper-cased for a-z only.
  Python's `str.upper` also maps other letters ("pendıng" with a dotless i
  becomes "PENDING"), so such a filter works in the source but is an error in
  the model.
- The React component state, the effect that combines the chosen date and
  time, rendering, and routing in the frontend.
- Password hashing, login and employee sign-up are outside this model.
