/** Inserts into and queries on the pre-approval grant table. */
module PreApprovalRepo {
  import opened Models
  import opened Seqs
  import opened Db

  /** `create_preapproval`: appends one grant holding exactly the given values
      (the cap defaults to 5); nothing checks the window order or the cap. */
  method CreatePreApproval(db: Database, visitorId: int, employeeId: int, validFrom: int, validTo: int,
                           now: int, maxVisitsPerDay: int := DEFAULT_MAX_VISITS_PER_DAY)
    returns (pa: PreApproval)
    requires db.Valid()
    modifies db
    ensures db.Valid()
    ensures pa == PreApproval(old(db.nextPreApprovalId), visitorId, employeeId, validFrom, validTo, maxVisitsPerDay, now)
    ensures db.preapprovals == old(db.preapprovals) + [pa]
    ensures db.nextPreApprovalId == old(db.nextPreApprovalId) + 1
    ensures db.visitors == old(db.visitors) && db.employees == old(db.employees)
    ensures db.approvals == old(db.approvals)
    ensures db.nextVisitorId == old(db.nextVisitorId) && db.nextApprovalId == old(db.nextApprovalId)
  {
    pa := PreApproval(db.nextPreApprovalId, visitorId, employeeId, validFrom, validTo, maxVisitsPerDay, now);
    db.preapprovals := db.preapprovals + [pa];
    db.nextPreApprovalId := db.nextPreApprovalId + 1;
  }

  function GrantedBy(employeeId: int): PreApproval -> bool {
    (g: PreApproval) => g.employeeId == employeeId
  }

  /** `get_preapprovals_for_employee`: exactly the grants that host scheduled, in table order. */
  function GetPreApprovalsForEmployee(preapprovals: seq<PreApproval>, employeeId: int): (r: seq<PreApproval>)
    ensures forall g :: g in r <==> g in preapprovals && g.employeeId == employeeId
  {
    Filter(preapprovals, GrantedBy(employeeId))
  }

  /** A new grant shows up in its host's list after the ones already there,
      and in no other host's list. */
  lemma {:induction false} NewGrantListed(preapprovals: seq<PreApproval>, pa: PreApproval, employeeId: int)
    ensures GetPreApprovalsForEmployee(preapprovals + [pa], employeeId) ==
      GetPreApprovalsForEmployee(preapprovals, employeeId) + (if pa.employeeId == employeeId then [pa] else [])
  {
    FilterAppend(preapprovals, [pa], GrantedBy(employeeId));
    assert Filter([pa], GrantedBy(employeeId)) == (if pa.employeeId == employeeId then [pa] else []);
  }
}
