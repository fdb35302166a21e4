/** The host dashboard's counters over the approval list it fetched: all
    approved visitors, and those approved today. */
module Dashboard {
  import opened Wrappers
  import opened Models
  import opened Seqs

  /** An approval as the dashboard receives it: timestamps are ISO 8601 text. */
  datatype ApprovalRow = ApprovalRow(id: int, status: ApprovalStatus, requestedAt: string, decisionAt: Option<string>)

  /** JavaScript's `slice(0, 10)`: the first ten characters, or all of a shorter text. */
  function Slice10(s: string): (r: string)
    ensures |r| == if |s| < 10 then |s| else 10
    ensures r <= s
  {
    if |s| < 10 then s else s[..10]
  }

  predicate IsApproved(a: ApprovalRow) {
    a.status == APPROVED
  }

  /** Approved, with a decision time whose date part is `today`; a row
      without a decision time never qualifies. */
  predicate ApprovedOn(a: ApprovalRow, today: string) {
    a.decisionAt.Some? && Slice10(a.decisionAt.value) == today && a.status == APPROVED
  }

  function Approved(): ApprovalRow -> bool {
    (a: ApprovalRow) => IsApproved(a)
  }

  function ApprovedToday(today: string): ApprovalRow -> bool {
    (a: ApprovalRow) => ApprovedOn(a, today)
  }

  /** `approvedCount`: the rows whose status is APPROVED. */
  function ApprovedCount(rows: seq<ApprovalRow>): (n: nat)
    ensures n <= |rows|
    ensures n == 0 <==> forall a :: a in rows ==> a.status != APPROVED
  {
    var approved := Filter(rows, Approved());
    assert approved != [] ==> approved[0] in approved;
    |approved|
  }

  /** `todayApproved`: the APPROVED rows decided on `today` (the client's
      current UTC date as "YYYY-MM-DD"). */
  function TodayApproved(rows: seq<ApprovalRow>, today: string): (n: nat)
    ensures n <= |rows|
    ensures n == 0 <==> forall a :: a in rows ==> !ApprovedOn(a, today)
  {
    var approvedToday := Filter(rows, ApprovedToday(today));
    assert approvedToday != [] ==> approvedToday[0] in approvedToday;
    |approvedToday|
  }

  /** One more row adds one to `approvedCount` exactly when it is APPROVED;
      with no rows counting zero, the counter is the number of APPROVED rows. */
  lemma ApprovedCountAppend(rows: seq<ApprovalRow>, row: ApprovalRow)
    ensures ApprovedCount(rows + [row]) == ApprovedCount(rows) + (if IsApproved(row) then 1 else 0)
  {
    FilterAppend(rows, [row], Approved());
    if IsApproved(row) {
      assert Filter([row], Approved()) == [row];
    } else {
      assert Filter([row], Approved()) == [];
    }
  }

  /** One more row adds one to `todayApproved` exactly when it is APPROVED and
      decided today; the counter is the number of such rows. */
  lemma TodayApprovedAppend(rows: seq<ApprovalRow>, row: ApprovalRow, today: string)
    ensures TodayApproved(rows + [row], today) == TodayApproved(rows, today) + (if ApprovedOn(row, today) then 1 else 0)
  {
    FilterAppend(rows, [row], ApprovedToday(today));
    if ApprovedOn(row, today) {
      assert Filter([row], ApprovedToday(today)) == [row];
    } else {
      assert Filter([row], ApprovedToday(today)) == [];
    }
  }

  /** Today's approvals are among all approvals. */
  lemma TodayWithinApproved(rows: seq<ApprovalRow>, today: string)
    ensures TodayApproved(rows, today) <= ApprovedCount(rows)
  {
    FilterWeaker(rows, ApprovedToday(today), Approved());
  }

  /** A row without a decision time changes the today counter by nothing,
      whatever its status. */
  lemma UndecidedNeverToday(rows: seq<ApprovalRow>, row: ApprovalRow, today: string)
    requires row.decisionAt.None?
    ensures TodayApproved(rows + [row], today) == TodayApproved(rows, today)
  {
    FilterAppend(rows, [row], ApprovedToday(today));
    assert Filter([row], ApprovedToday(today)) == [];
  }

  /** An APPROVED row decided today counts once in each counter. */
  lemma DecidedTodayCountsOnce(rows: seq<ApprovalRow>, row: ApprovalRow, today: string)
    requires ApprovedOn(row, today)
    ensures TodayApproved(rows + [row], today) == TodayApproved(rows, today) + 1
    ensures ApprovedCount(rows + [row]) == ApprovedCount(rows) + 1
  {
    FilterAppend(rows, [row], ApprovedToday(today));
    assert Filter([row], ApprovedToday(today)) == [row];
    FilterAppend(rows, [row], Approved());
    assert Filter([row], Approved()) == [row];
  }
}
