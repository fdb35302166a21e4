/** The decision a visitor lookup takes before answering: whether the visitor's
    latest approval may be escalated, whether a pre-approval grant is active
    now, and whether the grant's daily cap still has room. Everything here is
    a pure function of the approval and grant tables and the current time; the
    handler that acts on the decision is `VisitorRoutes.GetVisitor`. */
module Admission {
  import opened Wrappers
  import opened Models
  import opened Seqs

  const SECONDS_PER_DAY: int := 86400

  /** The UTC calendar day a timestamp falls on (`now.date()`, SQL `date(...)`). */
  function Day(t: int): int {
    t / SECONDS_PER_DAY
  }

  /** A grant is active when `now` lies in its window, both ends included. */
  predicate IsActive(g: PreApproval, now: int) {
    g.validFrom <= now <= g.validTo
  }

  function ActiveFor(visitorId: int, now: int): PreApproval -> bool {
    (g: PreApproval) => g.visitorId == visitorId && IsActive(g, now)
  }

  /** The first of the visitor's grants, in table order, that is active now. */
  function ActiveGrant(grants: seq<PreApproval>, visitorId: int, now: int): (r: Option<PreApproval>)
    ensures r.Some? ==> r.value in grants && r.value.visitorId == visitorId
    ensures r.Some? ==> r.value.validFrom <= now <= r.value.validTo
    ensures r.None? <==> forall g :: g in grants && g.visitorId == visitorId ==> now < g.validFrom || g.validTo < now
  {
    First(grants, ActiveFor(visitorId, now))
  }

  /** An approval that uses one of the visitor's slots on the day of `now`. */
  predicate CountsToday(a: Approval, visitorId: int, now: int) {
    && a.visitorId == visitorId
    && a.decisionAt.Some? && Day(a.decisionAt.value) == Day(now)
    && a.status == APPROVED
  }

  function CountsTodayFor(visitorId: int, now: int): Approval -> bool {
    (a: Approval) => CountsToday(a, visitorId, now)
  }

  /** `visits_today`: the visitor's APPROVED records decided on today's UTC date. */
  function VisitsToday(approvals: seq<Approval>, visitorId: int, now: int): (n: nat)
    ensures n <= |approvals|
    ensures n == 0 <==> forall a :: a in approvals ==> !CountsToday(a, visitorId, now)
  {
    var today := Filter(approvals, CountsTodayFor(visitorId, now));
    assert today != [] ==> today[0] in today;
    |today|
  }

  /** Counting one more record: it adds one exactly when it is an APPROVED
      record of the visitor decided today. With the empty table counting
      zero, this fixes the count as the number of such records. */
  lemma VisitsTodayAppend(approvals: seq<Approval>, x: Approval, visitorId: int, now: int)
    ensures VisitsToday(approvals + [x], visitorId, now) ==
      VisitsToday(approvals, visitorId, now) + (if CountsToday(x, visitorId, now) then 1 else 0)
  {
    FilterAppend(approvals, [x], CountsTodayFor(visitorId, now));
    if CountsToday(x, visitorId, now) {
      assert Filter([x], CountsTodayFor(visitorId, now)) == [x];
    } else {
      assert Filter([x], CountsTodayFor(visitorId, now)) == [];
    }
  }

  /** The visitor's record with the greatest `requestedAt`
      (`ORDER BY requested_at DESC` then `.first()`); of records requested at
      the same instant, the one stored first. */
  function LatestRequested(approvals: seq<Approval>, visitorId: int): (r: Option<Approval>)
    ensures r.Some? ==> r.value in approvals && r.value.visitorId == visitorId
    ensures r.Some? ==> forall a :: a in approvals && a.visitorId == visitorId ==> a.requestedAt <= r.value.requestedAt
    ensures r.None? <==> forall a :: a in approvals ==> a.visitorId != visitorId
    decreases |approvals|
  {
    if approvals == [] then None
    else
      var rest := LatestRequested(approvals[1..], visitorId);
      var a := approvals[0];
      assert forall x :: x in approvals[1..] ==> x in approvals;
      assert forall x :: x in approvals ==> x == a || x in approvals[1..];
      if a.visitorId != visitorId then rest
      else if rest.Some? && rest.value.requestedAt > a.requestedAt then rest
      else Some(a)
  }

  /** Row `a` comes before row `b` under `ORDER BY decision_at DESC NULLS LAST`. */
  predicate DecidedLater(a: Approval, b: Approval) {
    match a.decisionAt
    case None => false
    case Some(x) => b.decisionAt.None? || x > b.decisionAt.value
  }

  predicate ApprovedOf(a: Approval, visitorId: int) {
    a.visitorId == visitorId && a.status == APPROVED
  }

  /** The approval the lookup attaches to its answer: the visitor's APPROVED
      record decided last (undecided ones after all decided ones); never a
      PENDING or REJECTED record. */
  function LatestApproved(approvals: seq<Approval>, visitorId: int): (r: Option<Approval>)
    ensures r.Some? ==> r.value in approvals && ApprovedOf(r.value, visitorId)
    ensures r.Some? ==> forall a :: a in approvals && ApprovedOf(a, visitorId) ==> !DecidedLater(a, r.value)
    ensures r.None? <==> forall a :: a in approvals ==> !ApprovedOf(a, visitorId)
    decreases |approvals|
  {
    if approvals == [] then None
    else
      var rest := LatestApproved(approvals[1..], visitorId);
      var a := approvals[0];
      assert forall x :: x in approvals[1..] ==> x in approvals;
      assert forall x :: x in approvals ==> x == a || x in approvals[1..];
      if !ApprovedOf(a, visitorId) then rest
      else if rest.Some? && DecidedLater(rest.value, a) then rest
      else Some(a)
  }

  /** Escalation is tried only for a visitor with no record, or whose latest
      record is still PENDING. */
  predicate MayEscalate(latest: Option<Approval>) {
    latest.None? || latest.value.status == PENDING
  }

  /** What the lookup decides before writing anything. */
  datatype Decision =
    | Settled                         // latest record APPROVED or REJECTED: left alone
    | NoActiveGrant                   // no grant of this visitor covers now
    | CapReached(grant: PreApproval)  // the active grant's daily cap is used up
    | AutoApprove(grant: PreApproval) // a new APPROVED record is to be written

  function Decide(approvals: seq<Approval>, grants: seq<PreApproval>, visitorId: int, now: int): (d: Decision)
    ensures d.Settled? <==> !MayEscalate(LatestRequested(approvals, visitorId))
    ensures d.NoActiveGrant? ==> ActiveGrant(grants, visitorId, now).None?
    ensures d.CapReached? || d.AutoApprove? ==>
      ActiveGrant(grants, visitorId, now) == Some(d.grant) && d.grant in grants && IsActive(d.grant, now)
    ensures d.AutoApprove? ==> VisitsToday(approvals, visitorId, now) < d.grant.maxVisitsPerDay
    ensures d.CapReached? ==> VisitsToday(approvals, visitorId, now) >= d.grant.maxVisitsPerDay
  {
    if !MayEscalate(LatestRequested(approvals, visitorId)) then Settled
    else
      match ActiveGrant(grants, visitorId, now)
      case None => NoActiveGrant
      case Some(g) =>
        if VisitsToday(approvals, visitorId, now) < g.maxVisitsPerDay then AutoApprove(g) else CapReached(g)
  }

  /** The record an auto-approval inserts: APPROVED on behalf of the grant's
      host, requested and decided at the same instant. */
  function AutoApproval(id: int, visitorId: int, grant: PreApproval, now: int): (a: Approval)
    ensures a.status == APPROVED && a.visitorId == visitorId && a.employeeId == grant.employeeId
    ensures a.requestedAt == now && a.decisionAt == Some(now)
  {
    Approval(id, visitorId, grant.employeeId, APPROVED, now, Some(now))
  }

  /** The cap is compared strictly: with one slot left the lookup approves,
      with none left it does not, whatever else holds. */
  lemma CapBoundary(approvals: seq<Approval>, grants: seq<PreApproval>, visitorId: int, now: int, g: PreApproval)
    requires MayEscalate(LatestRequested(approvals, visitorId))
    requires ActiveGrant(grants, visitorId, now) == Some(g)
    ensures VisitsToday(approvals, visitorId, now) == g.maxVisitsPerDay - 1 ==>
      Decide(approvals, grants, visitorId, now) == AutoApprove(g)
    ensures VisitsToday(approvals, visitorId, now) == g.maxVisitsPerDay ==>
      Decide(approvals, grants, visitorId, now) == CapReached(g)
  {
  }

  /** An auto-approval takes exactly one of today's slots, and never more than the cap allows. */
  lemma AutoApprovalUsesOneSlot(approvals: seq<Approval>, grants: seq<PreApproval>, visitorId: int, now: int, id: int)
    requires Decide(approvals, grants, visitorId, now).AutoApprove?
    ensures var g := Decide(approvals, grants, visitorId, now).grant;
      var after := approvals + [AutoApproval(id, visitorId, g, now)];
      VisitsToday(after, visitorId, now) == VisitsToday(approvals, visitorId, now) + 1
      && VisitsToday(after, visitorId, now) <= g.maxVisitsPerDay
  {
    var g := Decide(approvals, grants, visitorId, now).grant;
    var x := AutoApproval(id, visitorId, g, now);
    FilterAppend(approvals, [x], CountsTodayFor(visitorId, now));
    assert Filter([x], CountsTodayFor(visitorId, now)) == [x];
  }

  /** A second lookup at the same instant, after the last slot of the day was
      taken, writes nothing. */
  lemma RepeatLookupAfterLastSlot(approvals: seq<Approval>, grants: seq<PreApproval>, visitorId: int, now: int, id: int)
    requires Decide(approvals, grants, visitorId, now).AutoApprove?
    requires VisitsToday(approvals, visitorId, now) + 1 == Decide(approvals, grants, visitorId, now).grant.maxVisitsPerDay
    ensures var g := Decide(approvals, grants, visitorId, now).grant;
      !Decide(approvals + [AutoApproval(id, visitorId, g, now)], grants, visitorId, now).AutoApprove?
  {
    AutoApprovalUsesOneSlot(approvals, grants, visitorId, now, id);
  }

  /** A record requested after all of the visitor's earlier ones becomes the latest. */
  lemma {:induction false} LatestRequestedAppend(approvals: seq<Approval>, x: Approval, visitorId: int)
    requires x.visitorId == visitorId
    requires forall a :: a in approvals && a.visitorId == visitorId ==> a.requestedAt < x.requestedAt
    ensures LatestRequested(approvals + [x], visitorId) == Some(x)
    decreases |approvals|
  {
    if approvals == [] {
      assert approvals + [x] == [x];
    } else {
      assert (approvals + [x])[1..] == approvals[1..] + [x];
      assert forall a :: a in approvals[1..] ==> a in approvals;
      LatestRequestedAppend(approvals[1..], x, visitorId);
    }
  }

  /** When every earlier record of the visitor was requested before `now`, the
      auto-approval becomes the latest record, so no later lookup escalates
      again: it is settled. */
  lemma AutoApprovalSettles(approvals: seq<Approval>, grants: seq<PreApproval>, visitorId: int, now: int, id: int, later: int)
    requires Decide(approvals, grants, visitorId, now).AutoApprove?
    requires forall a :: a in approvals && a.visitorId == visitorId ==> a.requestedAt < now
    ensures var g := Decide(approvals, grants, visitorId, now).grant;
      Decide(approvals + [AutoApproval(id, visitorId, g, now)], grants, visitorId, later) == Settled
  {
    var g := Decide(approvals, grants, visitorId, now).grant;
    LatestRequestedAppend(approvals, AutoApproval(id, visitorId, g, now), visitorId);
  }
}
