/** The approval ledger's storage operations: create a request, list the
    pending ones of a host, and set a record's status. */
module ApprovalRepo {
  import opened Wrappers
  import opened Models
  import opened Seqs
  import opened Db

  /** `create_approval`: appends one record for (visitor, host) with the
      column defaults: status PENDING, no decision time, requested now. */
  method CreateApproval(db: Database, visitorId: int, employeeId: int, now: int) returns (a: Approval)
    requires db.Valid()
    modifies db
    ensures db.Valid()
    ensures a == Approval(old(db.nextApprovalId), visitorId, employeeId, PENDING, now, None)
    ensures db.approvals == old(db.approvals) + [a]
    ensures db.nextApprovalId == old(db.nextApprovalId) + 1
    ensures db.visitors == old(db.visitors) && db.employees == old(db.employees)
    ensures db.preapprovals == old(db.preapprovals)
    ensures db.nextVisitorId == old(db.nextVisitorId) && db.nextPreApprovalId == old(db.nextPreApprovalId)
  {
    a := Approval(db.nextApprovalId, visitorId, employeeId, PENDING, now, None);
    db.approvals := db.approvals + [a];
    db.nextApprovalId := db.nextApprovalId + 1;
  }

  function PendingFor(employeeId: int): Approval -> bool {
    (a: Approval) => a.employeeId == employeeId && a.status == PENDING
  }

  /** `get_pending_approvals_for_employee`: exactly the host's PENDING records,
      in table order. */
  function GetPendingApprovalsForEmployee(approvals: seq<Approval>, employeeId: int): (r: seq<Approval>)
    ensures forall a :: a in r <==> a in approvals && a.employeeId == employeeId && a.status == PENDING
  {
    Filter(approvals, PendingFor(employeeId))
  }

  function IdIs(id: int): Approval -> bool {
    (a: Approval) => a.id == id
  }

  /** The record after `update_status`: the new status whatever the old one
      was, and a decision time of `now` only for APPROVED or REJECTED. */
  function WithStatus(a: Approval, status: ApprovalStatus, now: int): (r: Approval)
    ensures r.status == status
    ensures IsTerminal(status) ==> r.decisionAt == Some(now)
    ensures !IsTerminal(status) ==> r.decisionAt == a.decisionAt
    ensures r.id == a.id && r.visitorId == a.visitorId && r.employeeId == a.employeeId
    ensures r.requestedAt == a.requestedAt
  {
    a.(status := status, decisionAt := if IsTerminal(status) then Some(now) else a.decisionAt)
  }

  /** `update_status`: the record with that id gets the new status (there is
      no requirement that it be PENDING) and nothing else changes; an unknown
      id changes nothing and yields None. */
  method UpdateStatus(db: Database, approvalId: int, status: ApprovalStatus, now: int) returns (r: Option<Approval>)
    requires db.Valid()
    modifies db
    ensures db.Valid()
    ensures FirstIndex(old(db.approvals), IdIs(approvalId)).None? ==>
      r.None? && db.approvals == old(db.approvals)
    ensures FirstIndex(old(db.approvals), IdIs(approvalId)).Some? ==>
      var i := FirstIndex(old(db.approvals), IdIs(approvalId)).value;
      r == Some(WithStatus(old(db.approvals)[i], status, now)) && db.approvals == old(db.approvals)[i := r.value]
    ensures r.Some? ==> r.value.id == approvalId
    ensures db.visitors == old(db.visitors) && db.employees == old(db.employees)
    ensures db.preapprovals == old(db.preapprovals)
    ensures db.nextVisitorId == old(db.nextVisitorId) && db.nextApprovalId == old(db.nextApprovalId)
    ensures db.nextPreApprovalId == old(db.nextPreApprovalId)
  {
    var found := FirstIndex(db.approvals, IdIs(approvalId));
    if found.None? {
      return None;
    }
    var i := found.value;
    var updated := WithStatus(db.approvals[i], status, now);
    db.approvals := db.approvals[i := updated];
    r := Some(updated);
  }

  /** A decision time is present exactly on decided records; records the ledger
      creates and decides keep this, but `update_status` back to PENDING does not. */
  predicate DecisionConsistent(a: Approval) {
    a.decisionAt.Some? <==> IsTerminal(a.status)
  }

  /** Deciding a record keeps it consistent; setting a decided record back to
      PENDING leaves its old decision time in place. */
  lemma WithStatusConsistency(a: Approval, status: ApprovalStatus, now: int)
    ensures IsTerminal(status) ==> DecisionConsistent(WithStatus(a, status, now))
    ensures DecisionConsistent(a) && IsTerminal(a.status) && status == PENDING ==>
      !DecisionConsistent(WithStatus(a, status, now))
  {
  }
}
