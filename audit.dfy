/** The audit service: an append-only security log with a default severity,
    a fixed high-severity classification and two newest-first queries. */
module Audit {
  import opened Common
  import opened Seqs

  datatype Severity = Info | Warning | Error | Critical

  /** What a caller hands to `log`; an omitted field is `None`. `details` is
      the free-form JSON object, kept as string pairs. */
  datatype AuditEvent = AuditEvent(
    action: string,
    userId: Option<string>,
    targetId: Option<string>,
    details: map<string, string>,
    ipAddress: Option<string>,
    userAgent: Option<string>,
    severity: Option<Severity>)

  /** A stored `audit_logs` row. */
  datatype AuditLog = AuditLog(
    eventType: string,
    userId: Option<string>,
    targetId: Option<string>,
    details: map<string, string>,
    ipAddress: Option<string>,
    userAgent: Option<string>,
    severity: Severity,
    timestamp: Time)

  /** The query limit when the caller gives none. */
  const DefaultLimit: nat := 100

  /** The actions that raise a security alert. */
  const HighSeverityActions: seq<string> :=
    ["ACCOUNT_SUSPENDED", "MULTIPLE_FAILED_LOGINS", "UNAUTHORIZED_ACCESS_ATTEMPT"]

  /** `isHighSeverity`: decided by the action alone, whatever severity the event carries. */
  function IsHighSeverity(event: AuditEvent): (r: bool)
    ensures r <==> exists k :: 0 <= k < |HighSeverityActions| && HighSeverityActions[k] == event.action
    ensures event.action == "ACCOUNT_LOCKED" || event.action == "LOGIN_FAILED" ==> !r
  {
    event.action in HighSeverityActions
  }

  /** The row `log` writes: the action becomes the event type, the other fields
      are copied, a missing severity becomes INFO, and the time is the clock's. */
  function Entry(event: AuditEvent, now: Time): (e: AuditLog)
    ensures e.eventType == event.action && e.timestamp == now
    ensures e.userId == event.userId && e.targetId == event.targetId && e.details == event.details
    ensures e.ipAddress == event.ipAddress && e.userAgent == event.userAgent
    ensures event.severity.None? ==> e.severity == Info
    ensures event.severity.Some? ==> e.severity == event.severity.value
  {
    AuditLog(event.action, event.userId, event.targetId, event.details, event.ipAddress, event.userAgent,
             match event.severity case None => Info case Some(s) => s,
             now)
  }

  /** The rows a sequence of `log` calls at one instant writes. */
  function Entries(events: seq<AuditEvent>, now: Time): (r: seq<AuditLog>)
    ensures |r| == |events|
    ensures forall i :: 0 <= i < |r| ==> r[i] == Entry(events[i], now)
  {
    seq(|events|, i requires 0 <= i < |events| => Entry(events[i], now))
  }

  function TimestampOf(e: AuditLog): int
  {
    e.timestamp
  }

  /** The entries of one user, in log order. */
  function EntriesOf(logs: seq<AuditLog>, userId: string): (r: seq<AuditLog>)
    ensures multiset(r) <= multiset(logs)
    ensures forall x :: x in r <==> x in logs && x.userId == Some(userId)
    ensures forall x :: x in logs && x.userId == Some(userId) ==> multiset(r)[x] == multiset(logs)[x]
  {
    Filter(logs, (e: AuditLog) => e.userId == Some(userId))
  }

  class AuditService {
    var logs: seq<AuditLog>

    constructor ()
      ensures logs == []
    {
      logs := [];
    }

    /** `log`: appends exactly one entry and leaves every earlier one as it was.
        The console alert for high-severity events is output only. */
    method Log(event: AuditEvent, now: Time)
      modifies this
      ensures logs == old(logs) + [Entry(event, now)]
    {
      logs := logs + [Entry(event, now)];
    }

    /** `getUserLogs`: the user's newest `limit` entries, newest first; the
        limit defaults to 100. A limit of 0 is falsy, so the query's `take` is
        dropped and every entry of the user comes back. */
    function GetUserLogs(userId: string, limit: nat := DefaultLimit): (r: seq<AuditLog>)
      reads this
      ensures limit > 0 ==> |r| == Min(limit, |EntriesOf(logs, userId)|)
      ensures limit == 0 ==> multiset(r) == multiset(EntriesOf(logs, userId))
      ensures forall i :: 0 <= i < |r| ==> r[i].userId == Some(userId)
      ensures SortedDesc(r, TimestampOf)
      ensures multiset(r) <= multiset(logs)
      ensures forall x, y :: x in logs && x.userId == Some(userId) && x !in r && y in r ==> TimestampOf(x) <= TimestampOf(y)
      ensures (exists x :: x in logs && x.userId == Some(userId) && x !in r) ==> limit > 0 && |r| == limit
    {
      var mine := EntriesOf(logs, userId);
      var r := Newest(mine, TimestampOf, if limit == 0 then |mine| else limit);
      forall i | 0 <= i < |r| ensures r[i].userId == Some(userId) {
        assert r[i] in multiset(mine);
      }
      assert forall x :: x in logs && x.userId == Some(userId) ==> x in mine;
      assert limit == 0 || |mine| <= limit ==> forall x :: x in mine ==> x in multiset(r);
      r
    }

    /** `getRecentEvents`: the newest `limit` entries of the whole log, newest
        first; the limit defaults to 100, and a limit of 0 drops the `take`
        and answers the whole log. */
    function GetRecentEvents(limit: nat := DefaultLimit): (r: seq<AuditLog>)
      reads this
      ensures limit > 0 ==> |r| == Min(limit, |logs|)
      ensures limit == 0 ==> multiset(r) == multiset(logs)
      ensures SortedDesc(r, TimestampOf)
      ensures multiset(r) <= multiset(logs)
      ensures forall x, y :: x in logs && x !in r && y in r ==> TimestampOf(x) <= TimestampOf(y)
    {
      Newest(logs, TimestampOf, if limit == 0 then |logs| else limit)
    }
  }
}
