/** The approval endpoints: a host's approval list with an optional status
    filter, and the approve/reject action. */
module ApprovalRoutes {
  import opened Wrappers
  import opened Models
  import opened Seqs
  import opened Text
  import opened Db
  import ApprovalRepo
  import ApprovalService
  import VisitorRepo

  function ForEmployee(employeeId: int): Approval -> bool {
    (a: Approval) => a.employeeId == employeeId
  }

  function ForEmployeeWith(employeeId: int, status: ApprovalStatus): Approval -> bool {
    (a: Approval) => a.employeeId == employeeId && a.status == status
  }

  /** `get_approvals`. Without a status (or with an empty one) every record of
      the host is listed, in table order. A status is upper-cased and compared
      with the enumeration column; text that is not then a member name is
      refused by the database's enumeration type. */
  function GetApprovals(approvals: seq<Approval>, employeeId: int, status: Option<string>): (r: Result<seq<Approval>>)
    ensures r.Err? <==> Truthy(status) && ParseStatus(Upper(status.value)).None?
    ensures r.Ok? ==> |r.value| <= |approvals|
    ensures r.Ok? ==> forall a :: a in r.value <==>
      && a in approvals && a.employeeId == employeeId
      && (Truthy(status) ==> StatusName(a.status) == Upper(status.value))
  {
    if !Truthy(status) then Ok(Filter(approvals, ForEmployee(employeeId)))
    else
      match ParseStatus(Upper(status.value))
      case None => Err(Raised("invalid input value for enum approvalstatus"))
      case Some(st) => Ok(Filter(approvals, ForEmployeeWith(employeeId, st)))
  }

  /** The status filter ignores letter case. */
  lemma StatusFilterIgnoresCase(approvals: seq<Approval>, employeeId: int)
    ensures GetApprovals(approvals, employeeId, Some("pending")) == GetApprovals(approvals, employeeId, Some("PENDING"))
    ensures GetApprovals(approvals, employeeId, Some("Approved")) == GetApprovals(approvals, employeeId, Some("APPROVED"))
  {
    assert Upper("pending") == "PENDING";
    assert Upper("PENDING") == "PENDING";
    assert Upper("Approved") == "APPROVED";
    assert Upper("APPROVED") == "APPROVED";
  }

  /** Filtering by status only narrows the host's list. */
  lemma StatusFilterNarrows(approvals: seq<Approval>, employeeId: int, status: string)
    requires GetApprovals(approvals, employeeId, Some(status)).Ok?
    ensures var all := GetApprovals(approvals, employeeId, None);
      all.Ok? && |GetApprovals(approvals, employeeId, Some(status)).value| <= |all.value|
  {
    if status != "" {
      var st := ParseStatus(Upper(status)).value;
      FilterWeaker(approvals, ForEmployeeWith(employeeId, st), ForEmployee(employeeId));
    }
  }

  /** `update_approval_status`: the action's status is always a member name,
      so the service never raises here; an unknown approval is a 404. */
  method UpdateApprovalStatus(db: Database, approvalId: int, action: ApprovalStatus, now: int,
                              qrUpload: (string, string) -> Option<string>)
    returns (r: Result<Approval>)
    requires db.Valid()
    modifies db
    ensures db.Valid()
    ensures db.employees == old(db.employees) && db.preapprovals == old(db.preapprovals)
    ensures db.nextVisitorId == old(db.nextVisitorId) && db.nextApprovalId == old(db.nextApprovalId)
    ensures db.nextPreApprovalId == old(db.nextPreApprovalId)
    ensures FirstIndex(old(db.approvals), ApprovalRepo.IdIs(approvalId)).None? ==>
      r == Err(Http(404, "Approval not found")) && db.approvals == old(db.approvals) && db.visitors == old(db.visitors)
    ensures FirstIndex(old(db.approvals), ApprovalRepo.IdIs(approvalId)).Some? ==>
      var i := FirstIndex(old(db.approvals), ApprovalRepo.IdIs(approvalId)).value;
      var updated := ApprovalRepo.WithStatus(old(db.approvals)[i], action, now);
      var vid := updated.visitorId;
      && r == Ok(updated)
      && db.approvals == old(db.approvals)[i := updated]
      && (action != APPROVED || VisitorRepo.VisitorIndex(old(db.visitors), vid).None? ==>
            db.visitors == old(db.visitors))
      && (action == APPROVED && VisitorRepo.VisitorIndex(old(db.visitors), vid).Some? ==>
            var k := VisitorRepo.VisitorIndex(old(db.visitors), vid).value;
            db.visitors == old(db.visitors)[k := old(db.visitors)[k].(badgeUrl :=
              qrUpload(ApprovalService.QrPayload(vid), ApprovalService.BadgeFileName(vid)))])
  {
    assert ParseStatus(StatusName(action)) == Some(action);
    var updated := ApprovalService.ProcessApproval(db, approvalId, StatusName(action), now, qrUpload);
    assert updated.Ok?;
    if updated.value.None? {
      return Err(Http(404, "Approval not found"));
    }
    r := Ok(updated.value.value);
  }
}
