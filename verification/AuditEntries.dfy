/** Audit entries, and the helpers all storage backends share (internal/audit/helpers.go). */
module AuditEntries {
  import opened Wrappers
  import opened Seqs

  /** Zero stands for Go's zero time. */
  type Time = int

  /** `payload` holds the fields no query looks at: address, agent, details, error text. */
  datatype AuditEntry = AuditEntry(
    id: string, timestamp: Time, event: string, userID: string, clientID: string, success: bool, payload: string)

  /** An empty string or zero time leaves a field unconstrained. */
  datatype AuditFilter = AuditFilter(
    event: string, userID: string, clientID: string, success: Option<bool>, startTime: Time, endTime: Time)

  /** matchesFilter; None stands for a nil filter. */
  function MatchesFilter(e: AuditEntry, filter: Option<AuditFilter>): bool {
    if filter.None? then true
    else
      var f := filter.value;
      if f.event != "" && e.event != f.event then false
      else if f.userID != "" && e.userID != f.userID then false
      else if f.clientID != "" && e.clientID != f.clientID then false
      else if f.success.Some? && e.success != f.success.value then false
      else if f.startTime != 0 && e.timestamp < f.startTime then false
      else if f.endTime != 0 && e.timestamp > f.endTime then false
      else true
  }

  /** An entry matches when it meets every field that constrains. */
  lemma MatchesExactly(e: AuditEntry, f: AuditFilter)
    ensures MatchesFilter(e, None)
    ensures MatchesFilter(e, Some(f)) <==>
      && (f.event == "" || f.event == e.event)
      && (f.userID == "" || f.userID == e.userID)
      && (f.clientID == "" || f.clientID == e.clientID)
      && (f.success == None || f.success == Some(e.success))
      && (f.startTime == 0 || f.startTime <= e.timestamp)
      && (f.endTime == 0 || e.timestamp <= f.endTime)
  {
  }

  // ----- Pages -----

  /** A negative limit is no limit; a negative offset is none. */
  function Paginate<T>(entries: seq<T>, limit: int, offset: int): (r: (seq<T>, int))
    ensures r.1 == |entries|
    ensures var rest := |entries| - (if offset < 0 then 0 else offset);
      |r.0| == if rest <= 0 then 0 else if 0 <= limit <= rest then limit else rest
    ensures forall i :: 0 <= i < |r.0| ==> var j := i + (if offset < 0 then 0 else offset);
              0 <= j < |entries| && r.0[i] == entries[j]
  {
    var total := |entries|;
    var from := if offset < 0 then 0 else if offset > total then total else offset;
    var end := if limit >= 0 && from + limit <= total then from + limit else total;
    (entries[from..end], total)
  }

  /** The pages of `limit` entries that start at `offset`, `offset + limit`, and so on, joined. */
  function PagesFrom<T>(entries: seq<T>, limit: int, offset: nat): seq<T>
    requires limit > 0
    decreases |entries| - offset
  {
    if offset >= |entries| then []
    else Paginate(entries, limit, offset).0 + PagesFrom(entries, limit, offset + limit)
  }

  lemma {:induction false} PagesCoverEverything<T>(entries: seq<T>, limit: int, offset: nat)
    requires limit > 0 && offset <= |entries|
    ensures PagesFrom(entries, limit, offset) == entries[offset..]
    decreases |entries| - offset
  {
    if offset < |entries| {
      if offset + limit <= |entries| {
        PagesCoverEverything(entries, limit, offset + limit);
        assert entries[offset..] == entries[offset..offset + limit] + entries[offset + limit..];
      }
    }
  }

  // ----- What a query over a log means -----

  /** The entries that match, in order. */
  function Select(log: seq<AuditEntry>, filter: Option<AuditFilter>): seq<AuditEntry> {
    if log == [] then []
    else Select(log[..|log| - 1], filter) + if MatchesFilter(log[|log| - 1], filter) then [log[|log| - 1]] else []
  }

  /** The matching entries of a log, newest first. */
  function NewestFirst(log: seq<AuditEntry>, filter: Option<AuditFilter>): seq<AuditEntry> {
    Reverse(Select(log, filter))
  }

  function QueryLog(log: seq<AuditEntry>, limit: int, offset: int, filter: Option<AuditFilter>)
    : (seq<AuditEntry>, int)
  {
    Paginate(NewestFirst(log, filter), limit, offset)
  }

  lemma {:induction false} SelectAppend(a: seq<AuditEntry>, b: seq<AuditEntry>, filter: Option<AuditFilter>)
    ensures Select(a + b, filter) == Select(a, filter) + Select(b, filter)
  {
    if b == [] {
      assert a + b == a;
    } else {
      assert (a + b)[..|a + b| - 1] == a + b[..|b| - 1];
      SelectAppend(a, b[..|b| - 1], filter);
    }
  }

  lemma {:induction false} SelectMembers(log: seq<AuditEntry>, filter: Option<AuditFilter>)
    ensures forall e :: e in Select(log, filter) <==> e in log && MatchesFilter(e, filter)
  {
    if log != [] {
      SelectMembers(log[..|log| - 1], filter);
      assert log == log[..|log| - 1] + [log[|log| - 1]];
    }
  }

  /** The reverse scan that the memory and file backends share. */
  method ScanNewestFirst(log: seq<AuditEntry>, filter: Option<AuditFilter>) returns (filtered: seq<AuditEntry>)
    ensures filtered == NewestFirst(log, filter)
  {
    filtered := [];
    var i := |log|;
    while i > 0
      invariant 0 <= i <= |log|
      invariant filtered == NewestFirst(log[i..], filter)
    {
      i := i - 1;
      assert log[i..] == [log[i]] + log[i + 1..];
      SelectAppend([log[i]], log[i + 1..], filter);
      if MatchesFilter(log[i], filter) {
        filtered := filtered + [log[i]];
      }
    }
    assert log[0..] == log;
  }

  // ----- Statistics -----

  datatype AuditStats = AuditStats(totalEntries: nat, eventCounts: map<string, nat>, successRate: real)

  function CountEvent(log: seq<AuditEntry>, event: string): nat {
    if log == [] then 0 else CountEvent(log[..|log| - 1], event) + if log[|log| - 1].event == event then 1 else 0
  }

  function CountSuccess(log: seq<AuditEntry>): nat {
    if log == [] then 0 else CountSuccess(log[..|log| - 1]) + if log[|log| - 1].success then 1 else 0
  }

  lemma NothingCounted()
    ensures CountSuccess([]) == 0 && forall event :: CountEvent([], event) == 0
  {
  }

  lemma CountsGrow(log: seq<AuditEntry>, i: nat, event: string)
    requires i < |log|
    ensures CountEvent(log[..i + 1], event) == CountEvent(log[..i], event) + if log[i].event == event then 1 else 0
    ensures CountSuccess(log[..i + 1]) == CountSuccess(log[..i]) + if log[i].success then 1 else 0
  {
    assert log[..i + 1][..i] == log[..i];
  }

  /** Each event that occurs is counted; the rate is a percentage of all entries. */
  method ComputeStats(log: seq<AuditEntry>) returns (stats: AuditStats)
    ensures stats.totalEntries == |log|
    ensures forall event :: event in stats.eventCounts <==> exists e :: e in log && e.event == event
    ensures forall event :: event in stats.eventCounts ==> stats.eventCounts[event] == CountEvent(log, event)
    ensures stats.successRate == if log == [] then 0.0 else CountSuccess(log) as real / |log| as real * 100.0
  {
    hide CountEvent, CountSuccess;
    var counts: map<string, nat> := map[];
    var successCount := 0;
    NothingCounted();
    for i := 0 to |log|
      invariant forall event :: event in counts <==> exists e :: e in log[..i] && e.event == event
      invariant forall event :: CountEvent(log[..i], event) == if event in counts then counts[event] else 0
      invariant successCount == CountSuccess(log[..i])
    {
      var entry := log[i];
      assert log[..i + 1] == log[..i] + [entry];
      forall event
        ensures CountEvent(log[..i + 1], event) == CountEvent(log[..i], event) + if entry.event == event then 1 else 0
      {
        CountsGrow(log, i, event);
      }
      CountsGrow(log, i, entry.event);
      counts := counts[entry.event := (if entry.event in counts then counts[entry.event] else 0) + 1];
      if entry.success {
        successCount := successCount + 1;
      }
    }
    assert log[..|log|] == log;
    stats := AuditStats(|log|, counts, if |log| > 0 then successCount as real / |log| as real * 100.0 else 0.0);
  }
}
