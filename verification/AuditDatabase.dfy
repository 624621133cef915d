/**
 The database backend's writes: inserts that may fail, a bounded retry buffer, and
 the single flusher whose inserts interleave with everybody's stores.
 */
module AuditDatabase {
  import opened Seqs
  import opened AuditEntries
  import opened AuditQuery

  const BUFFER_SIZE: nat := 1024

  /** What the driver reports; an error may hide a row that was written all the same. */
  datatype Outcome = Inserted | Failed | WrittenButFailed

  /** The flusher: idle, inserting its batch from position `next` on, or holding what is left of it. */
  datatype Flusher = Idle | Inserting(pending: seq<AuditEntry>, next: nat) | GaveUp(failed: seq<AuditEntry>)

  datatype Db = Db(table: Table, buffer: seq<AuditEntry>, flusher: Flusher)

  /** INSERT ... ON CONFLICT (id) DO NOTHING */
  function Insert(table: Table, e: AuditEntry): Table {
    if e.id in table then table else table[e.id := e]
  }

  function AfterInsert(table: Table, e: AuditEntry, o: Outcome): Table {
    if o.Failed? then table else Insert(table, e)
  }

  /** An insert changes no row there is, and adds one for its entry only. */
  lemma InsertAdds(table: Table, e: AuditEntry, o: Outcome)
    ensures var table' := AfterInsert(table, e, o);
      && (o.Failed? ==> table' == table) && (!o.Failed? ==> e.id in table')
      && (forall id :: id in table ==> id in table' && table'[id] == table[id])
      && forall id :: id in table' && id !in table ==> table'[id] == e
  {
  }

  lemma ShortEnough(s: seq<AuditEntry>)
    requires |s| <= BUFFER_SIZE
    ensures LastN(s + [], BUFFER_SIZE) == s
  {
    assert s + [] == s;
  }

  // ----- The atomic steps -----

  /** A store first tries an insert, outside the lock. */
  function TryStep(db: Db, e: AuditEntry, o: Outcome): Db {
    db.(table := AfterInsert(db.table, e, o))
  }

  /** Under the lock, an entry whose insert failed joins the buffer. */
  function BufferStep(db: Db, e: AuditEntry): Db {
    db.(buffer := LastN(db.buffer + [e], BUFFER_SIZE))
  }

  function TakeStep(db: Db): Db {
    Db(db.table, [], if db.buffer == [] then Idle else Inserting(db.buffer, 0))
  }

  /** The next insert of the batch; at the first error the rest is given up for this time. */
  function InsertStep(db: Db, o: Outcome): Db
    requires db.flusher.Inserting? && db.flusher.next < |db.flusher.pending|
  {
    var p, i := db.flusher.pending, db.flusher.next;
    Db(AfterInsert(db.table, p[i], o), db.buffer, if o.Inserted? then Inserting(p, i + 1) else GaveUp(p[i..]))
  }

  function PutBackStep(db: Db): Db
    requires db.flusher.GaveUp?
  {
    Db(db.table, LastN(db.flusher.failed + db.buffer, BUFFER_SIZE), Idle)
  }

  function CleanupStep(db: Db, cutoff: Time): Db {
    db.(table := map id | id in db.table && db.table[id].timestamp >= cutoff :: db.table[id])
  }

  class DatabaseBackend {
    var table: Table
    var buffer: seq<AuditEntry>
    var flusher: Flusher  // flushBuffer's local variables

    constructor ()
      ensures State() == Db(map[], [], Idle)
    {
      table, buffer, flusher := map[], [], Idle;
    }

    function State(): Db
      reads this
    {
      Db(table, buffer, flusher)
    }

    method InsertOne(e: AuditEntry, o: Outcome) returns (ok: bool)
      modifies `table
      ensures State() == TryStep(old(State()), e, o) && ok == o.Inserted?
    {
      if !o.Failed? && e.id !in table {
        table := table[e.id := e];
      }
      ok := o.Inserted?;
    }

    method BufferEntry(e: AuditEntry)
      modifies `buffer
      ensures State() == BufferStep(old(State()), e)
    {
      buffer := buffer + [e];
      if |buffer| > BUFFER_SIZE {
        var dropped := |buffer| - BUFFER_SIZE;
        buffer := buffer[dropped..];
      }
    }

    /** A store that nothing comes in between: its two steps one after the other. */
    method Store(e: AuditEntry, o: Outcome) returns (ok: bool)
      modifies `table, `buffer
      ensures ok == o.Inserted?
      ensures var tried := TryStep(old(State()), e, o); State() == if ok then tried else BufferStep(tried, e)
    {
      ok := InsertOne(e, o);
      if !ok {
        BufferEntry(e);
      }
    }

    /** The first critical section of flushBuffer. */
    method TakePending()
      modifies `buffer, `flusher
      ensures State() == TakeStep(old(State()))
    {
      var pending := buffer;
      buffer := [];
      flusher := if |pending| == 0 then Idle else Inserting(pending, 0);
    }

    /** The second critical section, entered only with entries left over. */
    method PutBack()
      requires flusher.GaveUp?
      modifies `buffer, `flusher
      ensures State() == PutBackStep(old(State()))
    {
      buffer := flusher.failed + buffer;
      if |buffer| > BUFFER_SIZE {
        buffer := buffer[|buffer| - BUFFER_SIZE..];
      }
      flusher := Idle;
    }

    /** A flush that nothing interleaves with: a prefix of the buffer is inserted and the rest stays. */
    method FlushBuffer(outcomes: nat -> Outcome) returns (inserted: nat)
      requires flusher.Idle? && |buffer| <= BUFFER_SIZE
      modifies this
      ensures flusher.Idle? && inserted <= |old(buffer)| && buffer == old(buffer)[inserted..]
      ensures forall i :: 0 <= i < inserted ==> outcomes(i).Inserted? && old(buffer)[i].id in table
      ensures inserted < |old(buffer)| ==> !outcomes(inserted).Inserted?
      ensures forall id :: id in old(table) ==> id in table && table[id] == old(table)[id]
      ensures forall id :: id in table && id !in old(table) ==> table[id] in old(buffer)
    {
      hide AfterInsert, LastN;
      TakePending();
      inserted := 0;
      if flusher.Idle? { return; }
      var pending := flusher.pending;
      while inserted < |pending|
        invariant inserted <= |pending| && pending == old(buffer) && buffer == [] &&
          flusher == Inserting(pending, inserted)
        invariant forall i :: 0 <= i < inserted ==> outcomes(i).Inserted? && pending[i].id in table
        invariant forall id :: id in old(table) ==> id in table && table[id] == old(table)[id]
        invariant forall id :: id in table && id !in old(table) ==> table[id] in old(buffer)
      {
        InsertAdds(table, pending[inserted], outcomes(inserted));
        var ok := InsertOne(pending[inserted], outcomes(inserted));
        if !ok {
          ShortEnough(pending[inserted..]);
          flusher := GaveUp(pending[inserted..]);
          PutBack();
          return;
        }
        assert pending[inserted].id in table;
        inserted := inserted + 1;
        flusher := Inserting(pending, inserted);
      }
      flusher := Idle;
    }
  }

  // ----- Interleavings -----

  datatype Event =
    | TryStore(e: AuditEntry, o: Outcome)
    | Buffer(e: AuditEntry)
    | Take
    | InsertNext(o: Outcome)
    | Finish
    | PutBack
    | Cleanup(cutoff: Time)

  /** The backend, and what became of everything stored so far. */
  datatype World = World(
    db: Db,
    arrived: seq<AuditEntry>,      // buffered since the flusher took its batch
    begun: set<AuditEntry>,        // every entry whose Store has begun
    failing: multiset<AuditEntry>, // those whose insert has failed and that are yet to be buffered
    stored: set<AuditEntry>,       // those whose Store has finished
    dropped: set<AuditEntry>,      // trimmed from a full buffer
    expired: set<string>)          // identifiers whose rows a cleanup deleted

  const Start := World(Db(map[], [], Idle), [], {}, multiset{}, {}, {}, {})

  /** Only the flusher moves the flusher, and it goes round in order. */
  predicate Enabled(w: World, e: Event) {
    match e
    case TryStore(_, _) => true
    case Buffer(entry) => entry in w.failing
    case Take => w.db.flusher.Idle?
    case InsertNext(_) => w.db.flusher.Inserting? && w.db.flusher.next < |w.db.flusher.pending|
    case Finish => w.db.flusher.Inserting? && w.db.flusher.next == |w.db.flusher.pending|
    case PutBack => w.db.flusher.GaveUp?
    case Cleanup(_) => true
  }

  function Elements(s: seq<AuditEntry>): set<AuditEntry> {
    set e | e in s
  }

  /** What trimming `s` to the last BUFFER_SIZE entries loses. */
  function Trimmed(s: seq<AuditEntry>): set<AuditEntry> {
    if |s| <= BUFFER_SIZE then {} else Elements(s[..|s| - BUFFER_SIZE])
  }

  function Next(w: World, e: Event): World
    requires Enabled(w, e)
  {
    match e
    case TryStore(entry, o) =>
      var w1 := w.(db := TryStep(w.db, entry, o), begun := w.begun + {entry});
      if o.Inserted? then w1.(stored := w.stored + {entry}) else w1.(failing := w.failing + multiset{entry})
    case Buffer(entry) =>
      w.(db := BufferStep(w.db, entry), arrived := w.arrived + [entry], failing := w.failing - multiset{entry},
         stored := w.stored + {entry}, dropped := w.dropped + Trimmed(w.db.buffer + [entry]))
    case Take => w.(db := TakeStep(w.db), arrived := [])
    case InsertNext(o) => w.(db := InsertStep(w.db, o))
    case Finish => w.(db := w.db.(flusher := Idle))
    case PutBack => w.(db := PutBackStep(w.db), dropped := w.dropped + Trimmed(w.db.flusher.failed + w.db.buffer))
    case Cleanup(cutoff) =>
      var db' := CleanupStep(w.db, cutoff);
      w.(db := db', expired := w.expired + (w.db.table.Keys - db'.table.Keys))
  }

  predicate Legal(w: World, events: seq<Event>)
    decreases |events|
  {
    |events| == 0 || (Enabled(w, events[0]) && Legal(Next(w, events[0]), events[1..]))
  }

  function Run(w: World, events: seq<Event>): World
    requires Legal(w, events)
    decreases |events|
  {
    if |events| == 0 then w else Run(Next(w, events[0]), events[1..])
  }

  // ----- The buffer as a queue -----

  /** What the flusher still has to insert. */
  function Remaining(f: Flusher): seq<AuditEntry> {
    match f
    case Idle => []
    case Inserting(pending, next) => if next <= |pending| then pending[next..] else []
    case GaveUp(failed) => failed
  }

  /** The queue that the buffer and the flusher's batch stand for. */
  function Queue(w: World): seq<AuditEntry> {
    if w.db.flusher.Idle? then w.db.buffer else Remaining(w.db.flusher) + w.arrived
  }

  ghost predicate Bounded(w: World) {
    && |w.db.buffer| <= BUFFER_SIZE && |Remaining(w.db.flusher)| <= BUFFER_SIZE
    && (w.db.flusher.Inserting? ==> w.db.flusher.next <= |w.db.flusher.pending|)
    && (!w.db.flusher.Idle? ==> w.db.buffer == LastN(w.arrived, BUFFER_SIZE))
  }

  /** Buffered entries join at the back, successful inserts leave at the front, and only an idle queue is trimmed. */
  function QueueAfter(q: seq<AuditEntry>, w: World, e: Event): seq<AuditEntry> {
    var joined := if e.Buffer? then q + [e.e] else q;
    var left := if e.InsertNext? && e.o.Inserted? && joined != [] then joined[1..] else joined;
    if e.PutBack? || e.Finish? || w.db.flusher.Idle? then LastN(left, BUFFER_SIZE) else left
  }

  lemma BufferRefinesQueue(w: World, entry: AuditEntry)
    requires Bounded(w) && Enabled(w, Buffer(entry))
    ensures var e := Buffer(entry);
      Bounded(Next(w, e)) && Queue(Next(w, e)) == QueueAfter(Queue(w), w, e)
  {
    LastNOfTrimmedPrefix(w.arrived, [entry], BUFFER_SIZE);
    hide Trimmed, Remaining;
    assert Remaining(w.db.flusher) + w.arrived + [entry] == Remaining(w.db.flusher) + (w.arrived + [entry]);
  }

  lemma InsertRefinesQueue(w: World, o: Outcome)
    requires Bounded(w) && Enabled(w, InsertNext(o))
    ensures var e := InsertNext(o);
      Bounded(Next(w, e)) && Queue(Next(w, e)) == QueueAfter(Queue(w), w, e)
  {
    hide AfterInsert, LastN;
    InsertAdvances(w.db.flusher.pending, w.db.flusher.next, w.arrived);
  }

  lemma InsertAdvances(pending: seq<AuditEntry>, i: nat, arrived: seq<AuditEntry>)
    requires i < |pending|
    ensures pending[i..] + arrived != [] && (pending[i..] + arrived)[1..] == pending[i + 1..] + arrived
  {
    assert pending[i..] == [pending[i]] + pending[i + 1..];
  }

  lemma EndRefinesQueue(w: World, e: Event)
    requires Bounded(w) && Enabled(w, e) && (e.Finish? || e.PutBack?)
    ensures Bounded(Next(w, e)) && Queue(Next(w, e)) == QueueAfter(Queue(w), w, e)
  {
    hide Trimmed;
    if e.PutBack? {
      LastNOfTrimmedSuffix(w.db.flusher.failed, w.arrived, BUFFER_SIZE);
    } else {
      assert Remaining(w.db.flusher) + w.arrived == w.arrived;
    }
  }

  /** Every step of the two-part buffer is a step of one queue. */
  lemma StepRefinesQueue(w: World, e: Event)
    requires Bounded(w) && Enabled(w, e)
    ensures Bounded(Next(w, e)) && Queue(Next(w, e)) == QueueAfter(Queue(w), w, e)
  {
    hide AfterInsert, Trimmed, BufferStep, InsertStep, PutBackStep;
    match e {
      case TryStore(_, _) =>
      case Buffer(entry) => BufferRefinesQueue(w, entry);
      case InsertNext(o) => InsertRefinesQueue(w, o);
      case Finish => EndRefinesQueue(w, e);
      case PutBack => EndRefinesQueue(w, e);
      case Take => assert w.db.buffer + [] == w.db.buffer;
      case Cleanup(_) =>
    }
  }

  // ----- One flush among any number of stores -----

  /** The entries buffered among `events`, in order. */
  function Buffered(events: seq<Event>): seq<AuditEntry> {
    if |events| == 0 then [] else (if events[0].Buffer? then [events[0].e] else []) + Buffered(events[1..])
  }

  function Inserts(events: seq<Event>): nat {
    if |events| == 0 then 0
    else (if events[0].InsertNext? && events[0].o.Inserted? then 1 else 0) + Inserts(events[1..])
  }

  /** Steps during one flush: neither taking a batch nor ending the flush. */
  predicate MidFlush(events: seq<Event>) {
    forall i :: 0 <= i < |events| ==> !events[i].Take? && !events[i].Finish? && !events[i].PutBack?
  }

  lemma MidFlushStep(w: World, e: Event)
    requires Bounded(w) && Enabled(w, e) && !w.db.flusher.Idle? && !e.Take? && !e.Finish? && !e.PutBack?
    ensures var w' := Next(w, e); var n := if e.InsertNext? && e.o.Inserted? then 1 else 0;
      && !w'.db.flusher.Idle? && w'.arrived == w.arrived + (if e.Buffer? then [e.e] else [])
      && n <= |Remaining(w.db.flusher)| && Remaining(w'.db.flusher) == Remaining(w.db.flusher)[n..]
  {
    hide LastN, AfterInsert, Trimmed;
  }

  lemma {:induction false} FlushInterleaved(w: World, events: seq<Event>)
    requires Bounded(w) && Legal(w, events) && MidFlush(events) && !w.db.flusher.Idle?
    ensures var w' := Run(w, events);
      && Bounded(w') && !w'.db.flusher.Idle? && w'.arrived == w.arrived + Buffered(events)
      && Inserts(events) <= |Remaining(w.db.flusher)| &&
        Remaining(w'.db.flusher) == Remaining(w.db.flusher)[Inserts(events)..]
    decreases |events|
  {
    hide Next, QueueAfter, Queue, Bounded, Remaining;
    if |events| > 0 {
      var w1 := Next(w, events[0]);
      StepRefinesQueue(w, events[0]);
      MidFlushStep(w, events[0]);
      FlushInterleaved(w1, events[1..]);
      assert w.arrived + Buffered(events) == w1.arrived + Buffered(events[1..]);
    } else {
      assert w.arrived + [] == w.arrived;
    }
  }

  /**
   When the flusher gives up, the buffer is the last 1024 of the entries it could
   not insert followed by everything buffered meanwhile, in arrival order, whatever
   was trimmed on the way.
   */
  lemma PutBackKeepsTheNewest(w: World, events: seq<Event>)
    requires Bounded(w) && w.db.flusher.Idle? && MidFlush(events) && w.db.buffer != []
    requires Legal(Next(w, Take), events) && Run(Next(w, Take), events).db.flusher.GaveUp?
    ensures var w' := Next(Run(Next(w, Take), events), PutBack);
      Inserts(events) <= |w.db.buffer| &&
      w'.db.buffer == LastN(w.db.buffer[Inserts(events)..] + Buffered(events), 1024)
  {
    hide Next, Bounded, Remaining, Legal, LastN, Run;
    var w1 := Next(w, Take);
    FlushStarts(w);
    FlushInterleaved(w1, events);
    assert w1.arrived + Buffered(events) == Buffered(events);
    FlushFails(Run(w1, events));
  }

  lemma FlushStarts(w: World)
    requires Bounded(w) && w.db.flusher.Idle? && w.db.buffer != []
    ensures var w' := Next(w, Take);
      Bounded(w') && !w'.db.flusher.Idle? && w'.arrived == [] && Remaining(w'.db.flusher) == w.db.buffer
  {
  }

  lemma FlushFails(w: World)
    requires Bounded(w) && w.db.flusher.GaveUp?
    ensures Next(w, PutBack).db.buffer == LastN(Remaining(w.db.flusher) + w.arrived, BUFFER_SIZE)
  {
    LastNOfTrimmedSuffix(w.db.flusher.failed, w.arrived, BUFFER_SIZE);
  }

  // ----- Nothing is lost but by overflow -----

  ghost predicate Kept(w: World, e: AuditEntry) {
    e.id in w.db.table || e in w.db.buffer || e in Remaining(w.db.flusher) || e in w.dropped || e.id in w.expired
  }

  ghost predicate Conserved(w: World) {
    && (forall e :: e in w.stored ==> Kept(w, e))
    && (forall e :: e in w.begun <==> e in w.stored || e in w.failing)
    && (forall e :: e in w.db.buffer || e in Remaining(w.db.flusher) ==> e in w.begun)
    && (forall id :: id in w.db.table ==> w.db.table[id].id == id && w.db.table[id] in w.begun)
  }

  lemma TrimmedOrKept(s: seq<AuditEntry>)
    ensures forall e :: e in s ==> e in Trimmed(s) || e in LastN(s, BUFFER_SIZE)
    ensures forall e :: e in LastN(s, BUFFER_SIZE) ==> e in s
    ensures Trimmed(s) != {} ==> |LastN(s, BUFFER_SIZE)| == BUFFER_SIZE
  {
    if |s| > BUFFER_SIZE {
      assert s == s[..|s| - BUFFER_SIZE] + s[|s| - BUFFER_SIZE..];
    }
  }

  lemma TryConserves(w: World, entry: AuditEntry, o: Outcome)
    requires Conserved(w)
    ensures Conserved(Next(w, TryStore(entry, o)))
  {
    hide Remaining;
    var w' := Next(w, TryStore(entry, o));
    forall e ensures e in w'.begun <==> e in w'.stored || e in w'.failing {
      assert e in w'.failing <==> e in w.failing || (e == entry && !o.Inserted?);
    }
  }

  lemma BufferConserves(w: World, entry: AuditEntry)
    requires Conserved(w) && Enabled(w, Buffer(entry))
    ensures var w' := Next(w, Buffer(entry));
      Conserved(w') && (w'.dropped != w.dropped ==> |w'.db.buffer| == BUFFER_SIZE)
  {
    TrimmedOrKept(w.db.buffer + [entry]);
    hide LastN, Trimmed, Remaining;
    var w' := Next(w, Buffer(entry));
    forall e ensures e in w'.begun <==> e in w'.stored || e in w'.failing {
      assert e != entry ==> (e in w'.failing <==> e in w.failing);
    }
  }

  lemma InsertConserves(w: World, o: Outcome)
    requires Conserved(w) && Enabled(w, InsertNext(o))
    ensures Conserved(Next(w, InsertNext(o)))
  {
    var p, i := w.db.flusher.pending, w.db.flusher.next;
    assert p[i..] == [p[i]] + p[i + 1..];
  }

  lemma PutBackConserves(w: World)
    requires Conserved(w) && Enabled(w, PutBack)
    ensures var w' := Next(w, PutBack);
      Conserved(w') && (w'.dropped != w.dropped ==> |w'.db.buffer| == BUFFER_SIZE)
  {
    TrimmedOrKept(w.db.flusher.failed + w.db.buffer);
    hide LastN, Trimmed;
  }

  lemma StepConserves(w: World, e: Event)
    requires Bounded(w) && Conserved(w) && Enabled(w, e)
    ensures Conserved(Next(w, e))
    ensures Next(w, e).dropped != w.dropped ==> |Next(w, e).db.buffer| == BUFFER_SIZE
  {
    match e {
      case TryStore(entry, o) => TryConserves(w, entry, o);
      case Buffer(entry) => BufferConserves(w, entry);
      case InsertNext(o) => InsertConserves(w, o);
      case PutBack => PutBackConserves(w);
      case Take =>
      case Finish =>
      case Cleanup(_) =>
    }
    hide BufferStep, InsertStep, PutBackStep, LastN, Trimmed, AfterInsert;
  }

  /**
   At every point of every interleaving each finished store is a row, or waits in
   the buffer or in the flusher's batch, or was dropped from a full buffer, or its
   row was cleaned up; and at most 2048 entries wait.
   */
  lemma {:induction false} StoresAreConserved(w: World, events: seq<Event>)
    requires Bounded(w) && Conserved(w) && Legal(w, events)
    ensures var w' := Run(w, events);
      Bounded(w') && Conserved(w') && |w'.db.buffer| + |Remaining(w'.db.flusher)| <= 2048
    decreases |events|
  {
    if |events| > 0 {
      StepRefinesQueue(w, events[0]);
      StepConserves(w, events[0]);
      StoresAreConserved(Next(w, events[0]), events[1..]);
    }
  }

  /** With unique identifiers, the row of a stored entry is that entry, however often it was inserted. */
  lemma RowIsTheStoredEntry(events: seq<Event>, e: AuditEntry)
    requires Legal(Start, events)
    requires var w := Run(Start, events);
      e in w.begun && (forall a, b :: a in w.begun && b in w.begun && a.id == b.id ==> a == b) && e.id in w.db.table
    ensures Run(Start, events).db.table[e.id] == e
  {
    StoresAreConserved(Start, events);
  }
}
