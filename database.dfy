/** The database session: the four tables as sequences of rows in insertion
    order, and the next value of each table's id sequence. Every repository and
    handler works on one shared session and commits through it. */
module Db {
  import opened Models

  class Database {
    var visitors: seq<Visitor>
    var employees: seq<Employee>
    var approvals: seq<Approval>
    var preapprovals: seq<PreApproval>
    var nextVisitorId: int
    var nextApprovalId: int
    var nextPreApprovalId: int

    /** Ids are issued by the sequences (so a new id is never in use), and
        employee ids and e-mail addresses are unique. */
    ghost predicate Valid()
      reads this
    {
      && (forall i :: 0 <= i < |visitors| ==> visitors[i].id < nextVisitorId)
      && (forall i :: 0 <= i < |approvals| ==> approvals[i].id < nextApprovalId)
      && (forall i :: 0 <= i < |preapprovals| ==> preapprovals[i].id < nextPreApprovalId)
      && UniqueIds(employees)
      && UniqueEmails(employees)
    }

    /** A fresh database holding the registered staff and no visitors yet. */
    constructor (staff: seq<Employee>)
      requires UniqueIds(staff) && UniqueEmails(staff)
      ensures Valid()
      ensures employees == staff && visitors == [] && approvals == [] && preapprovals == []
      ensures nextVisitorId == 1 && nextApprovalId == 1 && nextPreApprovalId == 1
    {
      visitors, employees, approvals, preapprovals := [], staff, [], [];
      nextVisitorId, nextApprovalId, nextPreApprovalId := 1, 1, 1;
    }
  }

  /** The primary key of `Employee`. */
  ghost predicate UniqueIds(staff: seq<Employee>) {
    forall i, j :: 0 <= i < j < |staff| ==> staff[i].id != staff[j].id
  }

  /** The unique constraint on `Employee.email`. */
  ghost predicate UniqueEmails(staff: seq<Employee>) {
    forall i, j :: 0 <= i < j < |staff| ==> staff[i].email != staff[j].email
  }
}
