/** The three storage backends hold and answer from one log. */
module AuditBackends {
  import opened Wrappers
  import opened Seqs
  import opened AuditEntries
  import opened AuditQuery
  import AuditMemory
  import AuditFile
  import AuditDatabase

  /** Stores of the entries of `log`, every insert succeeding. */
  function Stores(log: seq<AuditEntry>): seq<AuditDatabase.Event> {
    seq(|log|, i requires 0 <= i < |log| => AuditDatabase.TryStore(log[i], AuditDatabase.Inserted))
  }

  lemma {:induction false} StoresFillTheTable(w: AuditDatabase.World, before: seq<AuditEntry>, log: seq<AuditEntry>)
    requires HoldsLog(w.db.table, before) && w.db.flusher.Idle?
    requires forall i, j :: 0 <= i < j < |before + log| ==> (before + log)[i].id != (before + log)[j].id
    ensures AuditDatabase.Legal(w, Stores(log))
    ensures HoldsLog(AuditDatabase.Run(w, Stores(log)).db.table, before + log)
    decreases |log|
  {
    if log == [] {
      assert before + log == before;
    } else {
      var w' := AuditDatabase.Next(w, Stores(log)[0]);
      assert Stores(log)[1..] == Stores(log[1..]);
      assert before + [log[0]] + log[1..] == before + log;
      forall e | e in before ensures e.id != log[0].id {
        var i :| 0 <= i < |before| && before[i] == e;
        assert (before + log)[i] == e && (before + log)[|before|] == log[0];
      }
      StoresFillTheTable(w', before + [log[0]], log[1..]);
    }
  }

  /** No store is between its steps, nothing waits for a retry, and nothing was dropped or cleaned up. */
  ghost predicate Drained(w: AuditDatabase.World) {
    && w.failing == multiset{} && w.db.buffer == [] && AuditDatabase.Remaining(w.db.flusher) == []
    && w.dropped == {} && w.expired == {}
  }

  /** `log` lists the entries of the stores that have begun, in time order. */
  ghost predicate ListsStores(w: AuditDatabase.World, log: seq<AuditEntry>) {
    IsLog(log) && forall e :: e in log <==> e in w.begun
  }

  /** However often inserts failed on the way, once the retry buffer is drained the table holds exactly the log. */
  lemma DrainedHoldsLog(events: seq<AuditDatabase.Event>, log: seq<AuditEntry>)
    requires AuditDatabase.Legal(AuditDatabase.Start, events)
    requires var w := AuditDatabase.Run(AuditDatabase.Start, events); Drained(w) && ListsStores(w, log)
    ensures HoldsLog(AuditDatabase.Run(AuditDatabase.Start, events).db.table, log)
  {
    var w := AuditDatabase.Run(AuditDatabase.Start, events);
    AuditDatabase.StoresAreConserved(AuditDatabase.Start, events);
    forall e | e in log ensures e.id in w.db.table && w.db.table[e.id] == e {
      assert e in w.stored && AuditDatabase.Kept(w, e);
      assert w.db.table[e.id] in log;
    }
  }

  /**
   When identifiers are distinct, timestamps increase and nothing has been evicted,
   every backend answers every query alike, with the same total: the database after
   any run that has drained its retry buffer.
   */
  lemma BackendsAgree(log: seq<AuditEntry>, maxEntries: nat, cfg: AuditFile.Config, files: AuditFile.Run,
                      events: seq<AuditDatabase.Event>, q: Statement, rows: seq<AuditEntry>,
                      filter: Option<AuditFilter>, limit: int, offset: int)
    requires |log| <= maxEntries
    requires AuditFile.Sound(cfg, files) && files.history == log && |AuditFile.Contents(files.files)| == |log|
    requires AuditDatabase.Legal(AuditDatabase.Start, events)
    requires var w := AuditDatabase.Run(AuditDatabase.Start, events);
      Drained(w) && ListsStores(w, log) && IsAnswer(w.db.table, q, rows)
    requires IsStatementFor(q, filter, limit, offset)
    ensures var answer := QueryLog(log, limit, offset, filter);
      && QueryLog(AuditMemory.StoreAll([], log, maxEntries), limit, offset, filter) == answer
      && QueryLog(AuditFile.Contents(files.files), limit, offset, filter) == answer
      && (rows, Count(AuditDatabase.Run(AuditDatabase.Start, events).db.table, q)) == answer
  {
    hide AuditFile.Contents, AuditDatabase.Run, AuditDatabase.Legal, QueryLog, Count, IsAnswer, Drained, HoldsLog;
    hide IsStatementFor;
    AuditMemory.HoldsTheNewest([], log, maxEntries);
    assert [] + log == log;
    DrainedHoldsLog(events, log);
    DatabaseAnswersAsLog(AuditDatabase.Run(AuditDatabase.Start, events).db.table, log, q, filter, limit, offset, rows);
  }

  /** Stores that all succeed are such a run. */
  lemma {:induction false} StoresAreDrained(w: AuditDatabase.World, log: seq<AuditEntry>)
    requires Drained(w) && w.db.flusher.Idle?
    ensures AuditDatabase.Legal(w, Stores(log))
    ensures var w' := AuditDatabase.Run(w, Stores(log));
      Drained(w') && forall e :: e in w'.begun <==> e in w.begun || e in log
    decreases |log|
  {
    if log != [] {
      var w1 := AuditDatabase.Next(w, Stores(log)[0]);
      assert Stores(log)[1..] == Stores(log[1..]);
      StoresAreDrained(w1, log[1..]);
      assert log == [log[0]] + log[1..];
    }
  }

  /** Consecutive pages join to the whole filtered log, newest first. */
  lemma PagesJoin(log: seq<AuditEntry>, filter: Option<AuditFilter>, limit: int)
    requires limit > 0
    ensures PagesFrom(NewestFirst(log, filter), limit, 0) == NewestFirst(log, filter)
  {
    PagesCoverEverything(NewestFirst(log, filter), limit, 0);
  }

  /** The memory backend also removes what is exactly at the cutoff, so the backends agree only when nothing is. */
  lemma CleanupsAgreeUnlessAtCutoff(log: seq<AuditEntry>, db: AuditDatabase.Db, cutoff: Time)
    requires HoldsLog(db.table, log)
    ensures HoldsLog(AuditDatabase.CleanupStep(db, cutoff).table, AuditMemory.After(log, cutoff))
      <==> forall e :: e in log ==> e.timestamp != cutoff
  {
    AuditMemory.CleanupKeepsTheNewer(log, cutoff);
    if e :| e in log && e.timestamp == cutoff {
      assert e.id in AuditDatabase.CleanupStep(db, cutoff).table;
    }
  }
}
