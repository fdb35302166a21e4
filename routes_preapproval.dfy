/** The pre-approval endpoint: an authenticated host schedules a grant for a
    visitor assigned to them. */
module PreApprovalRoutes {
  import opened Wrappers
  import opened Models
  import opened Seqs
  import opened Text
  import opened Db
  import opened PreApprovalSchema
  import VisitorRepo
  import PreApprovalService

  function EmployeeIdIs(id: int): Employee -> bool {
    (e: Employee) => e.id == id
  }

  /** Whether an employee's name is the name the visitor registered as host,
      compared after trimming and ignoring letter case. */
  predicate IsAssignedHost(v: Visitor, e: Employee) {
    Lower(Strip(v.hostEmployeeName)) == Lower(Strip(e.name))
  }

  /** The checks `create_preapproval` makes before scheduling, in their order;
      `currentUserId` is the token's `id` claim, None when the claim is missing.
      None means every check passed. */
  function CheckRequest(visitors: seq<Visitor>, employees: seq<Employee>, data: PreApprovalCreate,
                        currentUserId: Option<int>): (r: Option<Error>)
    ensures currentUserId.None? ==> r == Some(Raised("KeyError: 'id'"))
    ensures currentUserId.Some? && data.employeeId != currentUserId.value ==>
      r == Some(Http(403, "Unauthorized preapproval attempt"))
    ensures currentUserId == Some(data.employeeId) && VisitorRepo.GetVisitorById(visitors, data.visitorId).None? ==>
      r == Some(Http(404, "Visitor not found"))
    ensures (&& currentUserId == Some(data.employeeId)
             && VisitorRepo.GetVisitorById(visitors, data.visitorId).Some?
             && First(employees, EmployeeIdIs(data.employeeId)).None?) ==>
      r == Some(Raised("'NoneType' object has no attribute 'name'"))
    ensures (&& currentUserId == Some(data.employeeId)
             && VisitorRepo.GetVisitorById(visitors, data.visitorId).Some?
             && First(employees, EmployeeIdIs(data.employeeId)).Some?
             && !IsAssignedHost(VisitorRepo.GetVisitorById(visitors, data.visitorId).value,
                                First(employees, EmployeeIdIs(data.employeeId)).value)) ==>
      r == Some(Http(403, "Only the assigned host can pre-approve this visitor."))
    ensures r.None? <==>
      && currentUserId == Some(data.employeeId)
      && (exists v :: v in visitors && v.id == data.visitorId)
      && (exists e :: e in employees && e.id == data.employeeId)
      && IsAssignedHost(VisitorRepo.GetVisitorById(visitors, data.visitorId).value,
                        First(employees, EmployeeIdIs(data.employeeId)).value)
  {
    if currentUserId.None? then Some(Raised("KeyError: 'id'"))
    else if data.employeeId != currentUserId.value then Some(Http(403, "Unauthorized preapproval attempt"))
    else
      match VisitorRepo.GetVisitorById(visitors, data.visitorId)
      case None => Some(Http(404, "Visitor not found"))
      case Some(visitor) =>
        match First(employees, EmployeeIdIs(currentUserId.value))
        case None => Some(Raised("'NoneType' object has no attribute 'name'"))
        case Some(employee) =>
          if !IsAssignedHost(visitor, employee) then
            Some(Http(403, "Only the assigned host can pre-approve this visitor."))
          else None
  }

  /** Nobody schedules in another employee's name, whatever the other facts. */
  lemma NoImpersonation(visitors: seq<Visitor>, employees: seq<Employee>, data: PreApprovalCreate, uid: int)
    requires uid != data.employeeId
    ensures CheckRequest(visitors, employees, data, Some(uid)) == Some(Http(403, "Unauthorized preapproval attempt"))
  {
  }

  /** The host check tolerates case and surrounding spaces in either name. */
  lemma HostCheckTolerant(v: Visitor, e: Employee)
    requires v.hostEmployeeName == " alice " && e.name == "Alice"
    ensures IsAssignedHost(v, e)
  {
    StripSurrounded(" ", "alice", " ");
    StripSurrounded("", "Alice", "");
    assert " " + "alice" + " " == v.hostEmployeeName;
    assert "" + "Alice" + "" == e.name;
    assert Lower("alice") == Lower("Alice");
  }

  /** `create_preapproval`. When a check fails nothing is stored. Otherwise
      the grant is scheduled with the window ends as UTC instants and the
      requested cap, unchanged. */
  method CreatePreApproval(db: Database, data: PreApprovalCreate, currentUserId: Option<int>, now: int)
    returns (r: Result<PreApproval>)
    requires db.Valid()
    modifies db
    ensures db.Valid()
    ensures db.visitors == old(db.visitors) && db.employees == old(db.employees)
    ensures db.approvals == old(db.approvals)
    ensures db.nextVisitorId == old(db.nextVisitorId) && db.nextApprovalId == old(db.nextApprovalId)
    ensures CheckRequest(old(db.visitors), old(db.employees), data, currentUserId).Some? ==>
      && r == Err(CheckRequest(old(db.visitors), old(db.employees), data, currentUserId).value)
      && db.preapprovals == old(db.preapprovals) && db.nextPreApprovalId == old(db.nextPreApprovalId)
    ensures CheckRequest(old(db.visitors), old(db.employees), data, currentUserId).None? ==>
      var pa := PreApproval(old(db.nextPreApprovalId), data.visitorId, data.employeeId,
                            Instant(data.validFrom), Instant(data.validTo), data.maxVisitsPerDay, now);
      r == Ok(pa) && db.preapprovals == old(db.preapprovals) + [pa]
      && db.nextPreApprovalId == old(db.nextPreApprovalId) + 1
  {
    var failure := CheckRequest(db.visitors, db.employees, data, currentUserId);
    if failure.Some? {
      return Err(failure.value);
    }
    var pa := PreApprovalService.ScheduleVisit(db, data.visitorId, data.employeeId,
                                               Instant(data.validFrom), Instant(data.validTo), now, data.maxVisitsPerDay);
    r := Ok(pa);
  }
}
