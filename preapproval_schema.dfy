/** The pre-approval request body: the window ends are normalised to UTC
    before anything else sees them. */
module PreApprovalSchema {
  import opened Wrappers
  import opened Models

  /** A date-time as the request carries it: wall-clock seconds and, when the
      text names one, the offset from UTC in seconds. */
  datatype DateTime = DateTime(wall: int, offset: Option<int>)

  /** A window end before validation: text to be parsed as ISO 8601, or a value
      that already is a date-time. */
  datatype RawTimestamp = IsoText(text: string) | Native(value: DateTime)

  /** The point in time a date-time denotes; a date-time without an offset is
      read as UTC. */
  function Instant(dt: DateTime): int {
    dt.wall - dt.offset.GetOr(0)
  }

  /** `astimezone(timezone.utc)`, after a missing offset was replaced by UTC. */
  function ToUtc(dt: DateTime): (r: DateTime)
    ensures r.offset == Some(0)
    ensures Instant(r) == Instant(dt)
    ensures dt.offset.None? || dt.offset == Some(0) ==> r.wall == dt.wall
  {
    DateTime(Instant(dt), Some(0))
  }

  /** `ensure_utc`. Text is parsed by `fromIso` (a failed parse is a
      validation error) and converted to UTC, keeping the instant; a naive
      text is taken to be UTC already. Anything else passes through as it is. */
  function EnsureUtc(raw: RawTimestamp, fromIso: string -> Option<DateTime>): (r: Result<DateTime>)
    ensures raw.Native? ==> r == Ok(raw.value)
    ensures raw.IsoText? ==> (r.Err? <==> fromIso(raw.text).None?)
    ensures raw.IsoText? && r.Ok? ==>
      r.value.offset == Some(0) && Instant(r.value) == Instant(fromIso(raw.text).value)
  {
    match raw
    case Native(v) => Ok(v)
    case IsoText(s) =>
      match fromIso(s)
      case None => Err(Raised("Invalid isoformat string"))
      case Some(dt) => Ok(ToUtc(dt))
  }

  /** Validating an already validated value changes nothing. */
  lemma EnsureUtcIdempotent(raw: RawTimestamp, fromIso: string -> Option<DateTime>)
    requires EnsureUtc(raw, fromIso).Ok?
    ensures EnsureUtc(Native(EnsureUtc(raw, fromIso).value), fromIso) == EnsureUtc(raw, fromIso)
  {
  }

  /** The validated request. */
  datatype PreApprovalCreate = PreApprovalCreate(
    visitorId: int,
    employeeId: int,
    validFrom: DateTime,
    validTo: DateTime,
    maxVisitsPerDay: int)

  /** Builds the request from its raw fields; an omitted cap takes the default.
      Nothing relates the two window ends: an inverted window is accepted. */
  function ParsePreApprovalCreate(visitorId: int, employeeId: int, rawFrom: RawTimestamp, rawTo: RawTimestamp,
                                  maxVisitsPerDay: Option<int>, fromIso: string -> Option<DateTime>)
    : (r: Result<PreApprovalCreate>)
    ensures r.Ok? <==> EnsureUtc(rawFrom, fromIso).Ok? && EnsureUtc(rawTo, fromIso).Ok?
    ensures r.Ok? ==>
      && r.value.visitorId == visitorId && r.value.employeeId == employeeId
      && r.value.validFrom == EnsureUtc(rawFrom, fromIso).value
      && r.value.validTo == EnsureUtc(rawTo, fromIso).value
      && r.value.maxVisitsPerDay == maxVisitsPerDay.GetOr(DEFAULT_MAX_VISITS_PER_DAY)
  {
    match EnsureUtc(rawFrom, fromIso)
    case Err(e) => Err(e)
    case Ok(from) =>
      match EnsureUtc(rawTo, fromIso)
      case Err(e) => Err(e)
      case Ok(to) => Ok(PreApprovalCreate(visitorId, employeeId, from, to, maxVisitsPerDay.GetOr(DEFAULT_MAX_VISITS_PER_DAY)))
  }

  /** The schema does not order the window ends. */
  lemma InvertedWindowAccepted(fromIso: string -> Option<DateTime>)
    ensures var r := ParsePreApprovalCreate(1, 1, Native(DateTime(100, Some(0))), Native(DateTime(50, Some(0))), None, fromIso);
      r.Ok? && Instant(r.value.validTo) < Instant(r.value.validFrom) && r.value.maxVisitsPerDay == 5
  {
  }
}
