/** Visitor registration and lookup. */
module VisitorService {
  import opened Wrappers
  import opened Models
  import opened Db
  import EmployeeRepo
  import VisitorRepo
  import ApprovalService

  /** The registration request. */
  datatype VisitorCreate = VisitorCreate(
    fullName: string,
    contact: string,
    company: Option<string>,
    purpose: string,
    hostEmployeeName: string,
    hostDepartment: string,
    photoBase64: string)

  /** The photo URL a registration stores: an upload of the photo only when one was sent. */
  function PhotoUrl(data: VisitorCreate, photoUpload: string -> Option<string>): Option<string> {
    if data.photoBase64 != "" then photoUpload(data.photoBase64) else None
  }

  /** The columns `register_visitor` passes to `create_visitor`. */
  function Fields(data: VisitorCreate, photoUrl: Option<string>): VisitorRepo.VisitorData {
    VisitorRepo.VisitorData(data.fullName, data.contact, data.company, data.purpose,
                            data.hostEmployeeName, data.hostDepartment, photoUrl)
  }

  /** `register_visitor`. The visitor row is stored first; then the host is
      looked up by exact name only (the department is not consulted). With no
      such host the call raises, but the stored visitor remains. Otherwise one
      PENDING approval is created for (visitor, host) and the visitor returned. */
  method RegisterVisitor(db: Database, data: VisitorCreate, now: int, photoUpload: string -> Option<string>)
    returns (r: Result<Visitor>)
    requires db.Valid()
    modifies db
    ensures db.Valid()
    ensures var v := Visitor(old(db.nextVisitorId), data.fullName, data.contact, data.company, data.purpose,
                             data.hostEmployeeName, data.hostDepartment, PhotoUrl(data, photoUpload),
                             None, now, None, now);
      && db.visitors == old(db.visitors) + [v]
      && (r.Ok? ==> r.value == v)
    ensures db.nextVisitorId == old(db.nextVisitorId) + 1
    ensures var host := EmployeeRepo.GetEmployeeByName(old(db.employees), data.hostEmployeeName);
      && (host.None? ==> r == Err(Raised("Host employee not found"))
                         && db.approvals == old(db.approvals) && db.nextApprovalId == old(db.nextApprovalId))
      && (host.Some? ==> r.Ok?
                         && db.approvals == old(db.approvals)
                              + [Approval(old(db.nextApprovalId), old(db.nextVisitorId), host.value.id, PENDING, now, None)]
                         && db.nextApprovalId == old(db.nextApprovalId) + 1)
    ensures db.employees == old(db.employees) && db.preapprovals == old(db.preapprovals)
    ensures db.nextPreApprovalId == old(db.nextPreApprovalId)
  {
    var photoUrl := None;
    if data.photoBase64 != "" {
      photoUrl := photoUpload(data.photoBase64);
    }
    var visitor := VisitorRepo.CreateVisitor(db, Fields(data, photoUrl), now);
    var host := EmployeeRepo.GetEmployeeByName(db.employees, data.hostEmployeeName);
    if host.None? {
      return Err(Raised("Host employee not found"));
    }
    var _ := ApprovalService.CreateApprovalRequest(db, visitor.id, host.value.id, now);
    r := Ok(visitor);
  }

  /** `fetch_visitor`: the visitor with that id, or None. */
  function FetchVisitor(visitors: seq<Visitor>, visitorId: int): (r: Option<Visitor>)
    ensures r == VisitorRepo.GetVisitorById(visitors, visitorId)
    ensures r.Some? ==> r.value.id == visitorId
  {
    VisitorRepo.GetVisitorById(visitors, visitorId)
  }
}
