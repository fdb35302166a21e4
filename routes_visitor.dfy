/** The visitor endpoints: the lookup that runs the auto-approval, registration
    with its host check, and check-out. */
module VisitorRoutes {
  import opened Wrappers
  import opened Models
  import opened Seqs
  import opened Text
  import opened Db
  import opened Admission
  import EmployeeRepo
  import VisitorRepo
  import VisitorService

  /** The lookup's answer: the visitor and, when there is one, its latest APPROVED record. */
  datatype VisitorView = VisitorView(visitor: Visitor, approval: Option<Approval>)

  /** The upload name `generate_qr_and_upload` uses when the caller gives none,
      as the lookup does. */
  const DEFAULT_BADGE_FILENAME: string := "visitor_badge"

  /** The visitor after the lookup's badge step: only a visitor without a badge
      gets one (the QR encodes the bare id), and only then is check-in reset. */
  function WithBadge(v: Visitor, now: int, qrUpload: (string, string) -> Option<string>): Visitor {
    if Truthy(v.badgeUrl) then v
    else v.(badgeUrl := qrUpload(IntToString(v.id), DEFAULT_BADGE_FILENAME), checkIn := now)
  }

  /** `get_visitor`. An unknown id is a 404. Otherwise the auto-approval is
      attempted as `Admission.Decide` says: only when the visitor has no record
      or its latest one is PENDING, only under a grant active now, only while
      today's APPROVED count is below the grant's cap. It then appends one new
      APPROVED record (pre-existing records, a PENDING one included, stay as
      they are) and gives the visitor a badge if it has none. If the commit
      fails, both writes are rolled back (the approval id drawn for the insert
      stays used) and the lookup still answers. The
      answer carries the visitor's latest APPROVED record, never another status. */
  method GetVisitor(db: Database, visitorId: int, now: int,
                    qrUpload: (string, string) -> Option<string>, commitFails: bool)
    returns (r: Result<VisitorView>)
    requires db.Valid()
    modifies db
    ensures db.Valid()
    ensures db.employees == old(db.employees) && db.preapprovals == old(db.preapprovals)
    ensures db.nextVisitorId == old(db.nextVisitorId) && db.nextPreApprovalId == old(db.nextPreApprovalId)
    ensures VisitorRepo.VisitorIndex(old(db.visitors), visitorId).None? ==>
      && r == Err(Http(404, "Visitor not found"))
      && db.visitors == old(db.visitors) && db.approvals == old(db.approvals)
      && db.nextApprovalId == old(db.nextApprovalId)
    ensures VisitorRepo.VisitorIndex(old(db.visitors), visitorId).Some? ==> r.Ok?
    ensures var d := Decide(old(db.approvals), old(db.preapprovals), visitorId, now);
      VisitorRepo.VisitorIndex(old(db.visitors), visitorId).Some? && !d.AutoApprove? ==>
      && db.visitors == old(db.visitors) && db.approvals == old(db.approvals)
      && db.nextApprovalId == old(db.nextApprovalId)
    ensures var d := Decide(old(db.approvals), old(db.preapprovals), visitorId, now);
      VisitorRepo.VisitorIndex(old(db.visitors), visitorId).Some? && commitFails && d.AutoApprove? ==>
      && db.visitors == old(db.visitors) && db.approvals == old(db.approvals)
      && db.nextApprovalId == old(db.nextApprovalId) + 1
    ensures var d := Decide(old(db.approvals), old(db.preapprovals), visitorId, now);
      var k := VisitorRepo.VisitorIndex(old(db.visitors), visitorId);
      k.Some? && !commitFails && d.AutoApprove? ==>
      && db.approvals == old(db.approvals) + [AutoApproval(old(db.nextApprovalId), visitorId, d.grant, now)]
      && db.nextApprovalId == old(db.nextApprovalId) + 1
      && db.visitors == old(db.visitors)[k.value := WithBadge(old(db.visitors)[k.value], now, qrUpload)]
    ensures !MayEscalate(LatestRequested(old(db.approvals), visitorId)) ==>
      db.approvals == old(db.approvals) && db.visitors == old(db.visitors)
    ensures old(db.approvals) <= db.approvals && |db.approvals| <= |old(db.approvals)| + 1
    ensures var k := VisitorRepo.VisitorIndex(old(db.visitors), visitorId);
      k.Some? && Truthy(old(db.visitors)[k.value].badgeUrl) ==> db.visitors == old(db.visitors)
    ensures r.Ok? ==>
      && VisitorRepo.GetVisitorById(db.visitors, visitorId) == Some(r.value.visitor)
      && r.value.approval == LatestApproved(db.approvals, visitorId)
  {
    var k := VisitorRepo.VisitorIndex(db.visitors, visitorId);
    if k.None? {
      return Err(Http(404, "Visitor not found"));
    }
    var visitor := db.visitors[k.value];
    var existing := LatestRequested(db.approvals, visitorId);
    if MayEscalate(existing) {
      var pre := ActiveGrant(db.preapprovals, visitorId, now);
      if pre.Some? {
        var visitsToday := VisitsToday(db.approvals, visitorId, now);
        if visitsToday < pre.value.maxVisitsPerDay {
          visitor := CommitAutoApproval(db, k.value, pre.value, now, qrUpload, commitFails);
        }
      }
    }
    FirstIndexUpdate(old(db.visitors), k.value, visitor, VisitorRepo.IdIs(visitorId));
    r := Ok(VisitorView(visitor, LatestApproved(db.approvals, visitorId)));
  }

  /** The lookup's unit of work: insert the APPROVED record on behalf of the
      grant's host and give the visitor at index `k` a badge if it has none;
      a failing commit rolls both writes back, but the id the insert drew
      from the approvals' sequence stays used, as a sequence is not rolled
      back. Answers the visitor row as it is stored afterwards. */
  method CommitAutoApproval(db: Database, k: nat, grant: PreApproval, now: int,
                            qrUpload: (string, string) -> Option<string>, commitFails: bool)
    returns (visitor: Visitor)
    requires db.Valid() && k < |db.visitors|
    modifies db
    ensures db.Valid()
    ensures db.employees == old(db.employees) && db.preapprovals == old(db.preapprovals)
    ensures db.nextVisitorId == old(db.nextVisitorId) && db.nextPreApprovalId == old(db.nextPreApprovalId)
    ensures db.nextApprovalId == old(db.nextApprovalId) + 1
    ensures commitFails ==> db.visitors == old(db.visitors) && db.approvals == old(db.approvals)
    ensures !commitFails ==>
      && db.approvals == old(db.approvals) + [AutoApproval(old(db.nextApprovalId), old(db.visitors)[k].id, grant, now)]
      && db.visitors == old(db.visitors)[k := WithBadge(old(db.visitors)[k], now, qrUpload)]
    ensures |db.visitors| == |old(db.visitors)| && visitor == db.visitors[k]
  {
    var savedApprovals, savedVisitors := db.approvals, db.visitors;
    visitor := db.visitors[k];
    var autoApproval := AutoApproval(db.nextApprovalId, visitor.id, grant, now);
    db.approvals := db.approvals + [autoApproval];
    db.nextApprovalId := db.nextApprovalId + 1;
    if !Truthy(visitor.badgeUrl) {
      var badgeUrl := qrUpload(IntToString(visitor.id), DEFAULT_BADGE_FILENAME);
      visitor := visitor.(badgeUrl := badgeUrl, checkIn := now);
      db.visitors := db.visitors[k := visitor];
    }
    if commitFails {
      db.approvals, db.visitors := savedApprovals, savedVisitors;
      visitor := db.visitors[k];
    }
  }

  function HostMatches(name: string, department: string): Employee -> bool {
    (e: Employee) => ILike(e.name, Strip(name)) && ILike(e.department, Strip(department))
  }

  /** The route's host check: the first employee whose name and department
      match the trimmed request values under `ILIKE`. */
  function FindHost(employees: seq<Employee>, data: VisitorService.VisitorCreate): (r: Option<Employee>)
    ensures r.Some? ==> r.value in employees
    ensures r.Some? ==> ILike(r.value.name, Strip(data.hostEmployeeName))
    ensures r.Some? ==> ILike(r.value.department, Strip(data.hostDepartment))
    ensures r.None? <==> forall e :: e in employees ==>
      !(ILike(e.name, Strip(data.hostEmployeeName)) && ILike(e.department, Strip(data.hostDepartment)))
  {
    First(employees, HostMatches(data.hostEmployeeName, data.hostDepartment))
  }

  /** For a name and department without `%`, `_` or backslash, the route's
      host check is equality after trimming, ignoring the case of A-Z. */
  lemma HostCheckIgnoresCase(e: Employee, data: VisitorService.VisitorCreate)
    requires NoWildcards(Strip(data.hostEmployeeName)) && NoWildcards(Strip(data.hostDepartment))
    ensures HostMatches(data.hostEmployeeName, data.hostDepartment)(e) <==>
      Lower(e.name) == Lower(Strip(data.hostEmployeeName)) && Lower(e.department) == Lower(Strip(data.hostDepartment))
  {
    ILikeLiteral(e.name, Strip(data.hostEmployeeName));
    ILikeLiteral(e.department, Strip(data.hostDepartment));
  }

  /** The e-mail a successful registration sends to the host. */
  datatype Notice = Notice(toEmail: string, visitorName: string, purpose: string)

  /** `register_visitor` (the endpoint). Without a host matching name and
      department the answer is 400 and nothing is stored. Otherwise the
      service runs: the visitor is stored, and the service's own exact-name
      host lookup decides whether a PENDING approval is created or the request
      fails with the visitor already stored. The host is notified only after
      success and only when its e-mail is non-empty. */
  method RegisterVisitor(db: Database, data: VisitorService.VisitorCreate, now: int,
                         photoUpload: string -> Option<string>)
    returns (r: Result<Visitor>, notice: Option<Notice>)
    requires db.Valid()
    modifies db
    ensures db.Valid()
    ensures db.employees == old(db.employees) && db.preapprovals == old(db.preapprovals)
    ensures db.nextPreApprovalId == old(db.nextPreApprovalId)
    ensures FindHost(old(db.employees), data).None? ==>
      && r == Err(Http(400, "Host employee not found in the specified department")) && notice.None?
      && db.visitors == old(db.visitors) && db.approvals == old(db.approvals)
      && db.nextVisitorId == old(db.nextVisitorId) && db.nextApprovalId == old(db.nextApprovalId)
    ensures FindHost(old(db.employees), data).Some? ==>
      var v := Visitor(old(db.nextVisitorId), data.fullName, data.contact, data.company, data.purpose,
                       data.hostEmployeeName, data.hostDepartment, VisitorService.PhotoUrl(data, photoUpload),
                       None, now, None, now);
      var owner := EmployeeRepo.GetEmployeeByName(old(db.employees), data.hostEmployeeName);
      && db.visitors == old(db.visitors) + [v]
      && db.nextVisitorId == old(db.nextVisitorId) + 1
      && (owner.None? ==> && r == Err(Raised("Host employee not found")) && db.approvals == old(db.approvals)
                          && db.nextApprovalId == old(db.nextApprovalId))
      && (owner.Some? ==> && r == Ok(v)
                          && db.approvals == old(db.approvals)
                               + [Approval(old(db.nextApprovalId), v.id, owner.value.id, PENDING, now, None)]
                          && db.nextApprovalId == old(db.nextApprovalId) + 1)
    ensures notice.Some? <==> r.Ok? && FindHost(old(db.employees), data).value.email != ""
    ensures notice.Some? ==>
      notice.value == Notice(FindHost(old(db.employees), data).value.email, data.fullName, data.purpose)
  {
    var host := FindHost(db.employees, data);
    if host.None? {
      return Err(Http(400, "Host employee not found in the specified department")), None;
    }
    r := VisitorService.RegisterVisitor(db, data, now, photoUpload);
    if r.Err? {
      return r, None;
    }
    notice := None;
    if host.value.email != "" {
      notice := Some(Notice(host.value.email, data.fullName, data.purpose));
    }
  }

  /** `checkout_visitor`: 404 for an unknown visitor, 400 (and no change) for
      one already checked out, otherwise `checkOut` is set to now, once. */
  method CheckoutVisitor(db: Database, visitorId: int, now: int) returns (r: Result<Visitor>)
    requires db.Valid()
    modifies db
    ensures db.Valid()
    ensures db.employees == old(db.employees) && db.approvals == old(db.approvals)
    ensures db.preapprovals == old(db.preapprovals)
    ensures db.nextVisitorId == old(db.nextVisitorId) && db.nextApprovalId == old(db.nextApprovalId)
    ensures db.nextPreApprovalId == old(db.nextPreApprovalId)
    ensures var k := VisitorRepo.VisitorIndex(old(db.visitors), visitorId);
      k.None? ==> r == Err(Http(404, "Visitor not found")) && db.visitors == old(db.visitors)
    ensures var k := VisitorRepo.VisitorIndex(old(db.visitors), visitorId);
      k.Some? && old(db.visitors)[k.value].checkOut.Some? ==>
      r == Err(Http(400, "Visitor already checkout out")) && db.visitors == old(db.visitors)
    ensures var k := VisitorRepo.VisitorIndex(old(db.visitors), visitorId);
      k.Some? && old(db.visitors)[k.value].checkOut.None? ==>
      && r == Ok(old(db.visitors)[k.value].(checkOut := Some(now)))
      && db.visitors == old(db.visitors)[k.value := r.value]
  {
    var k := VisitorRepo.VisitorIndex(db.visitors, visitorId);
    if k.None? {
      return Err(Http(404, "Visitor not found"));
    }
    var visitor := db.visitors[k.value];
    if visitor.checkOut.Some? {
      return Err(Http(400, "Visitor already checkout out"));
    }
    visitor := visitor.(checkOut := Some(now));
    db.visitors := db.visitors[k.value := visitor];
    r := Ok(visitor);
  }
}
