/** Inserts into and lookups on the visitor table. */
module VisitorRepo {
  import opened Wrappers
  import opened Models
  import opened Seqs
  import opened Db

  /** The columns a registration supplies; the rest take their defaults. */
  datatype VisitorData = VisitorData(
    fullName: string,
    contact: string,
    company: Option<string>,
    purpose: string,
    hostEmployeeName: string,
    hostDepartment: string,
    photoUrl: Option<string>)

  function IdIs(id: int): Visitor -> bool {
    (v: Visitor) => v.id == id
  }

  /** Position of the row `get_visitor_by_id` returns; handlers update that row in place. */
  function VisitorIndex(visitors: seq<Visitor>, id: int): Option<nat> {
    FirstIndex(visitors, IdIs(id))
  }

  /** `get_visitor_by_id`: the visitor with that id, or None. */
  function GetVisitorById(visitors: seq<Visitor>, id: int): (r: Option<Visitor>)
    ensures r.Some? ==> r.value in visitors && r.value.id == id
    ensures r.None? <==> forall v :: v in visitors ==> v.id != id
  {
    First(visitors, IdIs(id))
  }

  /** `create_visitor`: one new row with the supplied columns, a fresh id, no
      badge, no check-out, and check-in and creation time set to `now`. */
  method CreateVisitor(db: Database, data: VisitorData, now: int) returns (v: Visitor)
    requires db.Valid()
    modifies db
    ensures db.Valid()
    ensures v == Visitor(old(db.nextVisitorId), data.fullName, data.contact, data.company, data.purpose,
                         data.hostEmployeeName, data.hostDepartment, data.photoUrl, None, now, None, now)
    ensures db.visitors == old(db.visitors) + [v]
    ensures db.nextVisitorId == old(db.nextVisitorId) + 1
    ensures db.employees == old(db.employees) && db.approvals == old(db.approvals)
    ensures db.preapprovals == old(db.preapprovals)
    ensures db.nextApprovalId == old(db.nextApprovalId) && db.nextPreApprovalId == old(db.nextPreApprovalId)
  {
    v := Visitor(db.nextVisitorId, data.fullName, data.contact, data.company, data.purpose,
                 data.hostEmployeeName, data.hostDepartment, data.photoUrl, None, now, None, now);
    db.visitors := db.visitors + [v];
    db.nextVisitorId := db.nextVisitorId + 1;
  }

  /** Looking up the id a creation returned yields the created row, and every
      other id still yields what it did before. */
  lemma {:induction false} CreatedVisitorIsFound(visitors: seq<Visitor>, v: Visitor, id: int)
    requires forall i :: 0 <= i < |visitors| ==> visitors[i].id < v.id
    ensures GetVisitorById(visitors + [v], v.id) == Some(v)
    ensures id != v.id ==> GetVisitorById(visitors + [v], id) == GetVisitorById(visitors, id)
  {
    FirstIndexAppend(visitors, [v], IdIs(v.id));
    FirstIndexAppend(visitors, [v], IdIs(id));
  }
}
