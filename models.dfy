/** The stored records: visitors, host employees, approval decisions and
    pre-approval grants, with the approval status enumeration. Timestamps are
    integer seconds since the epoch, in UTC. */
module Models {
  import opened Wrappers

  /** The three approval states; a record is created PENDING and a decision
      makes it APPROVED or REJECTED. */
  datatype ApprovalStatus = PENDING | APPROVED | REJECTED

  /** The enumeration member's name (also its string value). */
  function StatusName(s: ApprovalStatus): string {
    match s
    case PENDING => "PENDING"
    case APPROVED => "APPROVED"
    case REJECTED => "REJECTED"
  }

  /** `ApprovalStatus[name]` after the check `name in ApprovalStatus.__members__`:
      the member whose name is exactly `name`, or None for any other text. */
  function ParseStatus(name: string): (r: Option<ApprovalStatus>)
    ensures forall s :: r == Some(s) <==> StatusName(s) == name
  {
    if name == "PENDING" then Some(PENDING)
    else if name == "APPROVED" then Some(APPROVED)
    else if name == "REJECTED" then Some(REJECTED)
    else None
  }

  /** Exactly the three member names are accepted, each naming its own member. */
  lemma ParseStatusAccepts(name: string)
    ensures ParseStatus(name).Some? <==> name in ["PENDING", "APPROVED", "REJECTED"]
    ensures forall s :: ParseStatus(StatusName(s)) == Some(s)
  {
    assert forall s :: ParseStatus(StatusName(s)) == Some(s);
  }

  predicate IsTerminal(s: ApprovalStatus) {
    s == APPROVED || s == REJECTED
  }

  /** A visitor row. `company`, `photoUrl`, `badgeUrl` and `checkOut` may be NULL;
      `checkIn` and `createdAt` default to the insertion time. */
  datatype Visitor = Visitor(
    id: int,
    fullName: string,
    contact: string,
    company: Option<string>,
    purpose: string,
    hostEmployeeName: string,
    hostDepartment: string,
    photoUrl: Option<string>,
    badgeUrl: Option<string>,
    checkIn: int,
    checkOut: Option<int>,
    createdAt: int)

  /** A host employee row; `email` is unique across the table. */
  datatype Employee = Employee(id: int, name: string, department: string, email: string, password: string)

  /** An approval row: both references are required, `decisionAt` may be NULL. */
  datatype Approval = Approval(
    id: int,
    visitorId: int,
    employeeId: int,
    status: ApprovalStatus,
    requestedAt: int,
    decisionAt: Option<int>)

  /** A pre-approval grant: a window `[validFrom, validTo]` and a daily cap. */
  datatype PreApproval = PreApproval(
    id: int,
    visitorId: int,
    employeeId: int,
    validFrom: int,
    validTo: int,
    maxVisitsPerDay: int,
    createdAt: int)

  /** The column default of `max_visits_per_day`, also the default of every
      function that schedules a grant. */
  const DEFAULT_MAX_VISITS_PER_DAY: int := 5

  /** Python truthiness of a nullable text column: NULL and "" are both false. */
  predicate Truthy(o: Option<string>) {
    o.Some? && o.value != ""
  }
}
