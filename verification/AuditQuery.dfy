/** The database backend's queries: a filter compiled to a parameterized WHERE clause, and its meaning. */
module AuditQuery {
  import opened Wrappers
  import opened Seqs
  import opened AuditEntries

  datatype Column = EventColumn | UserColumn | ClientColumn | SuccessColumn | TimeColumn

  datatype Value = Text(s: string) | Flag(b: bool) | Instant(t: Time) | Number(n: int)

  datatype Operator = Equal | AtLeast | AtMost

  /** `column operator $placeholder` */
  datatype Condition = Condition(column: Column, operator: Operator, placeholder: nat)

  /** The rows where all conditions hold, newest first, cut by the values of two placeholders. */
  datatype Statement = Statement(conds: seq<Condition>, limitAt: Option<nat>, offsetAt: Option<nat>, args: seq<Value>)

  // ----- The meaning of a clause -----

  function ColumnOf(e: AuditEntry, column: Column): Value {
    match column
    case EventColumn => Text(e.event)
    case UserColumn => Text(e.userID)
    case ClientColumn => Text(e.clientID)
    case SuccessColumn => Flag(e.success)
    case TimeColumn => Instant(e.timestamp)
  }

  predicate Compares(left: Value, operator: Operator, right: Value) {
    match operator
    case Equal => left == right
    case AtLeast => left.Instant? && right.Instant? && left.t >= right.t
    case AtMost => left.Instant? && right.Instant? && left.t <= right.t
  }

  /** Placeholders count from 1; a missing argument would make the condition fail. */
  predicate Holds(c: Condition, args: seq<Value>, e: AuditEntry) {
    1 <= c.placeholder <= |args| && Compares(ColumnOf(e, c.column), c.operator, args[c.placeholder - 1])
  }

  predicate Clause(conds: seq<Condition>, args: seq<Value>, e: AuditEntry) {
    forall i :: 0 <= i < |conds| ==> Holds(conds[i], args, e)
  }

  /** Placeholders are $1 to $n, in the order of the arguments. */
  ghost predicate Numbered(conds: seq<Condition>, args: seq<Value>) {
    |conds| == |args| && forall i :: 0 <= i < |conds| ==> conds[i].placeholder == i + 1
  }

  lemma OneMoreCondition(conds: seq<Condition>, args: seq<Value>, column: Column, operator: Operator, value: Value,
                         e: AuditEntry)
    requires Numbered(conds, args)
    ensures Clause(conds + [Condition(column, operator, |args| + 1)], args + [value], e)
      <==> Clause(conds, args, e) && Compares(ColumnOf(e, column), operator, value)
  {
    var c := Condition(column, operator, |args| + 1);
    assert forall i :: 0 <= i < |conds| ==> Holds(conds[i], args, e) == Holds((conds + [c])[i], args + [value], e);
    assert (conds + [c])[|conds|] == c;
  }

  /** The two lists that the closure `add` appends to. */
  class ClauseBuilder {
    var conds: seq<Condition>
    var args: seq<Value>

    constructor ()
      ensures conds == [] && args == []
    {
      conds, args := [], [];
    }

    method Add(column: Column, operator: Operator, value: Value)
      requires Numbered(conds, args)
      modifies this
      ensures Numbered(conds, args)
      ensures forall e :: Clause(conds, args, e) <==>
        Clause(old(conds), old(args), e) && Compares(ColumnOf(e, column), operator, value)
    {
      args := args + [value];
      conds := conds + [Condition(column, operator, |args|)];
      forall e
        ensures Clause(conds, args, e) <==>
          Clause(old(conds), old(args), e) && Compares(ColumnOf(e, column), operator, value)
      {
        OneMoreCondition(old(conds), old(args), column, operator, value, e);
      }
    }
  }

  /** The clause means what matchesFilter decides, for every filter and entry. */
  method BuildWhereClause(filter: Option<AuditFilter>) returns (conds: seq<Condition>, args: seq<Value>)
    ensures Numbered(conds, args)
    ensures forall e :: Clause(conds, args, e) <==> MatchesFilter(e, filter)
  {
    if filter.None? { return [], []; }
    var f := filter.value;
    var b := new ClauseBuilder();
    if f.event != "" { b.Add(EventColumn, Equal, Text(f.event)); }
    if f.userID != "" { b.Add(UserColumn, Equal, Text(f.userID)); }
    if f.clientID != "" { b.Add(ClientColumn, Equal, Text(f.clientID)); }
    if f.success.Some? { b.Add(SuccessColumn, Equal, Flag(f.success.value)); }
    if f.startTime != 0 { b.Add(TimeColumn, AtLeast, Instant(f.startTime)); }
    if f.endTime != 0 { b.Add(TimeColumn, AtMost, Instant(f.endTime)); }
    return b.conds, b.args;
  }

  // ----- The whole statement -----

  /** Limit and offset go to the arguments after the clause's own, each under its own placeholder. */
  ghost predicate IsStatementFor(q: Statement, filter: Option<AuditFilter>, limit: int, offset: int) {
    && (forall e :: Clause(q.conds, q.args, e) <==> MatchesFilter(e, filter))
    && (forall i :: 0 <= i < |q.conds| ==> q.conds[i].placeholder == i + 1)
    && |q.args| == |q.conds| + (if limit >= 0 then 1 else 0) + (if offset > 0 then 1 else 0)
    && (if limit >= 0 then q.limitAt == Some(|q.conds| + 1) && q.args[|q.conds|] == Number(limit) else q.limitAt.None?)
    && (if offset > 0 then q.offsetAt == Some(|q.args|) && q.args[|q.args| - 1] == Number(offset) else q.offsetAt.None?)
  }

  lemma MoreArgumentsChangeNothing(conds: seq<Condition>, args: seq<Value>, more: seq<Value>, e: AuditEntry)
    requires Numbered(conds, args)
    ensures Clause(conds, args + more, e) <==> Clause(conds, args, e)
  {
    assert forall i :: 0 <= i < |conds| ==> Holds(conds[i], args, e) == Holds(conds[i], args + more, e);
  }

  method BuildStatement(filter: Option<AuditFilter>, limit: int, offset: int) returns (q: Statement)
    ensures IsStatementFor(q, filter, limit, offset)
  {
    var conds, args := BuildWhereClause(filter);
    var queryArgs, limitAt, offsetAt := args, None, None;
    if limit >= 0 {
      limitAt := Some(|queryArgs| + 1);
      queryArgs := queryArgs + [Number(limit)];
    }
    if offset > 0 {
      offsetAt := Some(|queryArgs| + 1);
      queryArgs := queryArgs + [Number(offset)];
    }
    assert queryArgs == args + queryArgs[|args|..];
    forall e ensures Clause(conds, queryArgs, e) <==> MatchesFilter(e, filter) {
      MoreArgumentsChangeNothing(conds, args, queryArgs[|args|..], e);
    }
    q := Statement(conds, limitAt, offsetAt, queryArgs);
  }

  // ----- What a database may answer -----

  type Table = map<string, AuditEntry>

  /** The rows that match, each once, in descending order of time; ties in any order. */
  ghost predicate IsOrdering(table: Table, q: Statement, rows: seq<AuditEntry>) {
    && Distinct(rows)
    && (forall e :: e in rows <==> e.id in table && table[e.id] == e && Clause(q.conds, q.args, e))
    && forall i, j :: 0 <= i < j < |rows| ==> rows[i].timestamp >= rows[j].timestamp
  }

  /** OFFSET skips rows, LIMIT bounds what follows. */
  function Cut(rows: seq<AuditEntry>, limit: Option<int>, offset: Option<int>): seq<AuditEntry> {
    var from := if offset.None? || offset.value < 0 then 0 else if offset.value > |rows| then |rows| else offset.value;
    var rest := rows[from..];
    if limit.Some? && 0 <= limit.value < |rest| then rest[..limit.value] else rest
  }

  function Argument(q: Statement, at: Option<nat>): Option<int> {
    if at.Some? && 1 <= at.value <= |q.args| && q.args[at.value - 1].Number? then Some(q.args[at.value - 1].n) else None
  }

  ghost predicate IsAnswer(table: Table, q: Statement, rows: seq<AuditEntry>) {
    exists ordering ::
      IsOrdering(table, q, ordering) && rows == Cut(ordering, Argument(q, q.limitAt), Argument(q, q.offsetAt))
  }

  /** SELECT COUNT(*) */
  ghost function Count(table: Table, q: Statement): nat {
    |set id | id in table && Clause(q.conds, q.args, table[id])|
  }

  // ----- A table that holds a log -----

  ghost predicate IsLog(log: seq<AuditEntry>) {
    Ascending(log) && forall i, j :: 0 <= i < j < |log| ==> log[i].id != log[j].id
  }

  ghost predicate HoldsLog(table: Table, log: seq<AuditEntry>) {
    && (forall id :: id in table ==> table[id].id == id && table[id] in log)
    && (forall e :: e in log ==> e.id in table && table[e.id] == e)
  }

  ghost predicate Descending(rows: seq<AuditEntry>) {
    forall i, j :: 0 <= i < j < |rows| ==> rows[i].timestamp > rows[j].timestamp
  }

  ghost predicate Ascending(log: seq<AuditEntry>) {
    forall i, j :: 0 <= i < j < |log| ==> log[i].timestamp < log[j].timestamp
  }

  lemma {:induction false} SelectAscends(log: seq<AuditEntry>, filter: Option<AuditFilter>)
    requires Ascending(log)
    ensures Ascending(Select(log, filter))
  {
    hide MatchesFilter;
    if log != [] {
      var before, last := log[..|log| - 1], log[|log| - 1];
      SelectAscends(before, filter);
      SelectMembers(before, filter);
      assert forall e :: e in Select(before, filter) ==> e in before && e.timestamp < last.timestamp;
    }
  }

  lemma ReverseMembers<T>(s: seq<T>)
    ensures forall x :: x in Reverse(s) <==> x in s
  {
    forall x | x in s ensures x in Reverse(s) {
      var i :| 0 <= i < |s| && s[i] == x;
      assert Reverse(s)[|s| - 1 - i] == x;
    }
  }

  lemma NewestFirstDescends(log: seq<AuditEntry>, filter: Option<AuditFilter>)
    requires Ascending(log)
    ensures Descending(NewestFirst(log, filter))
    ensures forall e :: e in NewestFirst(log, filter) <==> e in log && MatchesFilter(e, filter)
  {
    hide MatchesFilter;
    SelectAscends(log, filter);
    SelectMembers(log, filter);
    ReverseMembers(Select(log, filter));
  }

  lemma TailMembers(rows: seq<AuditEntry>)
    requires Descending(rows) && rows != []
    ensures forall e :: e in rows[1..] <==> e in rows && e != rows[0]
  {
    assert rows == [rows[0]] + rows[1..];
  }

  lemma {:induction false} DescendingIsUnique(a: seq<AuditEntry>, b: seq<AuditEntry>)
    requires Descending(a) && Descending(b) && forall e :: e in a <==> e in b
    ensures a == b
  {
    assert a != [] ==> a[0] in b;
    assert b != [] ==> b[0] in a;
    if a != [] {
      assert a[0] == b[0];
      TailMembers(a);
      TailMembers(b);
      DescendingIsUnique(a[1..], b[1..]);
      assert a == [a[0]] + a[1..] && b == [b[0]] + b[1..];
    }
  }

  lemma OrderingIsNewestFirst(table: Table, log: seq<AuditEntry>, q: Statement, filter: Option<AuditFilter>,
                              rows: seq<AuditEntry>)
    requires IsLog(log) && HoldsLog(table, log) && IsOrdering(table, q, rows)
    requires forall e :: Clause(q.conds, q.args, e) <==> MatchesFilter(e, filter)
    ensures rows == NewestFirst(log, filter)
  {
    hide Clause, MatchesFilter, NewestFirst;
    NewestFirstDescends(log, filter);
    forall i, j | 0 <= i < j < |rows| ensures rows[i].timestamp > rows[j].timestamp {
      assert rows[i] in rows && rows[j] in rows;
      assert rows[i] in log && rows[j] in log;
    }
    DescendingIsUnique(rows, NewestFirst(log, filter));
  }

  lemma CutIsPage(rows: seq<AuditEntry>, limit: int, offset: int)
    ensures Cut(rows, if limit >= 0 then Some(limit) else None, if offset > 0 then Some(offset) else None)
      == Paginate(rows, limit, offset).0
  {
  }

  /** Whatever a database answers to the statement for a query is the page of the log that the query names. */
  lemma DatabaseAnswersAsLog(table: Table, log: seq<AuditEntry>, q: Statement, filter: Option<AuditFilter>,
                             limit: int, offset: int,
                             rows: seq<AuditEntry>)
    requires IsLog(log) && HoldsLog(table, log) && IsStatementFor(q, filter, limit, offset) && IsAnswer(table, q, rows)
    ensures (rows, Count(table, q)) == QueryLog(log, limit, offset, filter)
  {
    hide Clause, MatchesFilter, Paginate, Cut, NewestFirst, Count, IsOrdering, IsLog;
    assert Argument(q, q.limitAt) == if limit >= 0 then Some(limit) else None;
    assert Argument(q, q.offsetAt) == if offset > 0 then Some(offset) else None;
    var ordering :| IsOrdering(table, q, ordering) &&
      rows == Cut(ordering, Argument(q, q.limitAt), Argument(q, q.offsetAt));
    OrderingIsNewestFirst(table, log, q, filter, ordering);
    CutIsPage(ordering, limit, offset);
    CountIsLength(table, q, ordering);
  }

  lemma CountIsLength(table: Table, q: Statement, rows: seq<AuditEntry>)
    requires IsOrdering(table, q, rows) && forall id :: id in table ==> table[id].id == id
    ensures Count(table, q) == |rows|
  {
    hide Clause;
    var ids := set id | id in table && Clause(q.conds, q.args, table[id]);
    var names := seq(|rows|, i requires 0 <= i < |rows| => rows[i].id);
    forall i, j | 0 <= i < j < |names| ensures names[i] != names[j] {
      assert rows[i] in rows && rows[j] in rows;
    }
    forall id ensures id in names <==> id in ids {
      if id in ids {
        assert table[id] in rows;
        var i :| 0 <= i < |rows| && rows[i] == table[id];
        assert names[i] == id;
      }
      if i :| 0 <= i < |names| && names[i] == id {
        assert rows[i] in rows;
      }
    }
    DistinctLength(names, ids);
  }
}
