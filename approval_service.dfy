/** Approval workflows: creating requests, listing a host's pending ones, and
    recording a host's decision, which on approval also issues a QR badge. */
module ApprovalService {
  import opened Wrappers
  import opened Models
  import opened Seqs
  import opened Text
  import opened Db
  import ApprovalRepo
  import VisitorRepo

  /** `create_approval_request`: delegates to the repository. */
  method CreateApprovalRequest(db: Database, visitorId: int, employeeId: int, now: int) returns (a: Approval)
    requires db.Valid()
    modifies db
    ensures db.Valid()
    ensures a == Approval(old(db.nextApprovalId), visitorId, employeeId, PENDING, now, None)
    ensures db.approvals == old(db.approvals) + [a]
    ensures db.nextApprovalId == old(db.nextApprovalId) + 1
    ensures db.visitors == old(db.visitors) && db.employees == old(db.employees)
    ensures db.preapprovals == old(db.preapprovals)
    ensures db.nextVisitorId == old(db.nextVisitorId) && db.nextPreApprovalId == old(db.nextPreApprovalId)
  {
    a := ApprovalRepo.CreateApproval(db, visitorId, employeeId, now);
  }

  /** `get_pending_for_employee`: the repository's pending list. */
  function GetPendingForEmployee(approvals: seq<Approval>, employeeId: int): (r: seq<Approval>)
    ensures r == ApprovalRepo.GetPendingApprovalsForEmployee(approvals, employeeId)
    ensures forall a :: a in r ==> a.status == PENDING && a.employeeId == employeeId
  {
    ApprovalRepo.GetPendingApprovalsForEmployee(approvals, employeeId)
  }

  /** The text encoded in a manually issued badge. */
  function QrPayload(visitorId: int): string {
    "visitor:" + IntToString(visitorId)
  }

  /** The name the manually issued badge is uploaded under. */
  function BadgeFileName(visitorId: int): string {
    "badge_" + IntToString(visitorId)
  }

  /** The badge payload names its visitor: it starts with "visitor:" and the
      rest reads back as the visitor id, so two visitors never share a payload. */
  lemma QrPayloadNamesVisitor(a: nat, b: nat)
    ensures QrPayload(a)[..8] == "visitor:"
    ensures DigitsValue(QrPayload(a)[8..]) == a
    ensures QrPayload(a) == QrPayload(b) ==> a == b
  {
    assert QrPayload(a)[8..] == NatToString(a);
    assert QrPayload(b)[8..] == NatToString(b);
    NatToStringRoundTrip(a);
    NatToStringRoundTrip(b);
  }

  /** `process_approval`. A status that is not a member name raises before any
      write. Otherwise the record's status is set as `update_status` does; an
      unknown id yields None and changes nothing. When the new status is
      APPROVED, the visitor's `badgeUrl` is overwritten with whatever the QR
      upload returned (even None, even over an existing badge); the status
      change stands either way. REJECTED and PENDING never touch the visitor. */
  method ProcessApproval(db: Database, approvalId: int, status: string, now: int,
                         qrUpload: (string, string) -> Option<string>)
    returns (r: Result<Option<Approval>>)
    requires db.Valid()
    modifies db
    ensures db.Valid()
    ensures ParseStatus(status).None? ==> r == Err(Raised("Invalid approval status")) && unchanged(db)
    ensures ParseStatus(status).Some? && FirstIndex(old(db.approvals), ApprovalRepo.IdIs(approvalId)).None? ==>
      r == Ok(None) && db.approvals == old(db.approvals) && db.visitors == old(db.visitors)
    ensures ParseStatus(status).Some? && FirstIndex(old(db.approvals), ApprovalRepo.IdIs(approvalId)).Some? ==>
      var i := FirstIndex(old(db.approvals), ApprovalRepo.IdIs(approvalId)).value;
      var updated := ApprovalRepo.WithStatus(old(db.approvals)[i], ParseStatus(status).value, now);
      var vid := updated.visitorId;
      && r == Ok(Some(updated))
      && db.approvals == old(db.approvals)[i := updated]
      && (status != "APPROVED" || VisitorRepo.VisitorIndex(old(db.visitors), vid).None? ==>
            db.visitors == old(db.visitors))
      && (status == "APPROVED" && VisitorRepo.VisitorIndex(old(db.visitors), vid).Some? ==>
            var k := VisitorRepo.VisitorIndex(old(db.visitors), vid).value;
            db.visitors == old(db.visitors)[k := old(db.visitors)[k].(badgeUrl := qrUpload(QrPayload(vid), BadgeFileName(vid)))])
    ensures db.employees == old(db.employees) && db.preapprovals == old(db.preapprovals)
    ensures db.nextVisitorId == old(db.nextVisitorId) && db.nextApprovalId == old(db.nextApprovalId)
    ensures db.nextPreApprovalId == old(db.nextPreApprovalId)
  {
    var parsed := ParseStatus(status);
    if parsed.None? {
      return Err(Raised("Invalid approval status"));
    }
    var updated := ApprovalRepo.UpdateStatus(db, approvalId, parsed.value, now);
    if updated.Some? && status == "APPROVED" {
      var vid := updated.value.visitorId;
      var badgeUrl := qrUpload(QrPayload(vid), BadgeFileName(vid));
      var k := VisitorRepo.VisitorIndex(db.visitors, vid);
      if k.Some? {
        db.visitors := db.visitors[k.value := db.visitors[k.value].(badgeUrl := badgeUrl)];
      }
    }
    r := Ok(updated);
  }
}
