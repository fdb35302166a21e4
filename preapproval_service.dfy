/** Scheduling and listing pre-approval grants. */
module PreApprovalService {
  import opened Models
  import opened Db
  import PreApprovalRepo

  /** `schedule_visit`: forwards all five values unchanged to the repository,
      with the same default cap and no validation of window or cap. */
  method ScheduleVisit(db: Database, visitorId: int, employeeId: int, validFrom: int, validTo: int,
                       now: int, maxVisitsPerDay: int := DEFAULT_MAX_VISITS_PER_DAY)
    returns (pa: PreApproval)
    requires db.Valid()
    modifies db
    ensures db.Valid()
    ensures pa == PreApproval(old(db.nextPreApprovalId), visitorId, employeeId, validFrom, validTo, maxVisitsPerDay, now)
    ensures db.preapprovals == old(db.preapprovals) + [pa]
    ensures db.nextPreApprovalId == old(db.nextPreApprovalId) + 1
    ensures db.visitors == old(db.visitors) && db.employees == old(db.employees)
    ensures db.approvals == old(db.approvals)
    ensures db.nextVisitorId == old(db.nextVisitorId) && db.nextApprovalId == old(db.nextApprovalId)
  {
    pa := PreApprovalRepo.CreatePreApproval(db, visitorId, employeeId, validFrom, validTo, now, maxVisitsPerDay);
  }

  /** `list_preapprovals`: the repository's query by host. */
  function ListPreApprovals(preapprovals: seq<PreApproval>, employeeId: int): (r: seq<PreApproval>)
    ensures r == PreApprovalRepo.GetPreApprovalsForEmployee(preapprovals, employeeId)
    ensures forall g :: g in r <==> g in preapprovals && g.employeeId == employeeId
  {
    PreApprovalRepo.GetPreApprovalsForEmployee(preapprovals, employeeId)
  }
}
