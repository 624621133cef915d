/**
 The file backend over a model file system: one active file, and rotated backups
 named by the time of their rotation. A file is the sequence of its lines.
 */
module AuditFile {
  import opened Wrappers
  import opened Seqs
  import opened AuditEntries
  import opened Sorting

  /** A line has at least its newline. */
  type LineSize = n: int | n > 0 witness 1

  datatype Config = Config(maxFileSize: int, maxBackups: nat, lineSize: AuditEntry -> LineSize)

  /** The suffix of a backup's name: the time of its rotation, zero-padded. */
  type Stamp = string

  type Backups = map<Stamp, seq<AuditEntry>>

  datatype Files = Files(backups: Backups, active: seq<AuditEntry>, size: int)

  function Bytes(cfg: Config, file: seq<AuditEntry>): nat {
    if file == [] then 0 else Bytes(cfg, file[..|file| - 1]) + cfg.lineSize(file[|file| - 1])
  }

  // ----- The sorted listing of the backups -----

  ghost predicate IsListing(order: seq<Stamp>, names: set<Stamp>) {
    (forall i, j :: 0 <= i < j < |order| ==> Less(order[i], order[j])) && (forall t :: t in order <==> t in names)
  }

  ghost function Listing(names: set<Stamp>): (order: seq<Stamp>)
    ensures IsListing(order, names) && |order| == |names|
  {
    if names == {} then []
    else
      var last := Latest(names);
      var order := Listing(names - {last});
      ListingExtends(order, names, last);
      order + [last]
  }

  lemma ListingExtends(order: seq<Stamp>, names: set<Stamp>, last: Stamp)
    requires IsListing(order, names - {last}) && last in names && forall t :: t in names && t != last ==> Less(t, last)
    ensures IsListing(order + [last], names) && |names - {last}| + 1 == |names|
  {
    hide Less;
    assert names == (names - {last}) + {last};
    assert forall t :: t in order + [last] <==> t in order || t == last;
    assert forall i :: 0 <= i < |order| ==> order[i] in order;
  }

  ghost function Latest(names: set<Stamp>): (last: Stamp)
    requires names != {}
    ensures last in names && forall t :: t in names && t != last ==> Less(t, last)
  {
    LessIsStrictWeakOrder();
    var t :| t in names;
    var others := names - {t};
    assert forall u :: u in names ==> u == t || u in others;
    if others == {} then t
    else
      var latest := Latest(others);
      LessIsTotal(t, latest);
      if Less(latest, t) then t else latest
  }

  lemma {:induction false} ListingIsUnique(a: seq<Stamp>, b: seq<Stamp>, names: set<Stamp>)
    requires IsListing(a, names) && IsListing(b, names)
    ensures a == b
  {
    hide IsListing, Less;
    LastIsLatest(a, names);
    LastIsLatest(b, names);
    if a != [] {
      var x, y := a[|a| - 1], b[|b| - 1];
      LessIsTotal(x, y);
      ListingIsUnique(a[..|a| - 1], b[..|b| - 1], names - {x});
      assert a == a[..|a| - 1] + [x] && b == b[..|b| - 1] + [x];
    }
  }

  lemma LastIsLatest(order: seq<Stamp>, names: set<Stamp>)
    requires IsListing(order, names)
    ensures order == [] <==> names == {}
    ensures order != [] ==>
      var last := order[|order| - 1];
      last in names && IsListing(order[..|order| - 1], names - {last}) && forall t :: t in names ==>
        t == last || Less(t, last)
  {
    if order != [] {
      var last := order[|order| - 1];
      LessIsIrreflexive(last);
      hide Less;
      assert order == order[..|order| - 1] + [last] && last in order;
    } else {
      assert forall t :: t in names ==> t in order;
    }
  }

  /** The lines of the backups, in the order of `order`. */
  function Joined(backups: Backups, order: seq<Stamp>): seq<AuditEntry>
    requires forall t :: t in order ==> t in backups
  {
    if order == [] then []
    else
      var last := order[|order| - 1];
      assert last in order;
      Joined(backups, order[..|order| - 1]) + backups[last]
  }

  lemma NoneJoined(backups: Backups)
    ensures Joined(backups, []) == []
  {
  }

  lemma OneMoreJoined(backups: Backups, before: seq<Stamp>, last: Stamp)
    requires last in backups && forall t :: t in before ==> t in backups
    ensures Joined(backups, before + [last]) == Joined(backups, before) + backups[last]
  {
    assert (before + [last])[..|before|] == before;
  }

  ghost function Log(backups: Backups): seq<AuditEntry> {
    Joined(backups, Listing(backups.Keys))
  }

  /** What reading every file gives: backups oldest first, then the active file. */
  ghost function Contents(st: Files): seq<AuditEntry> {
    Log(st.backups) + st.active
  }

  // ----- The operations -----

  ghost function Elements(order: seq<Stamp>): set<Stamp> {
    set t | t in order
  }

  lemma ElementsStep(order: seq<Stamp>, i: nat)
    requires i < |order|
    ensures Elements(order[..i + 1]) == Elements(order[..i]) + {order[i]}
  {
    assert order[..i + 1] == order[..i] + [order[i]];
  }

  ghost function Pruned(backups: Backups, maxBackups: nat): Backups {
    var order := Listing(backups.Keys);
    if |order| <= maxBackups then backups else backups - Elements(order[..|order| - maxBackups])
  }

  /** Renaming to an existing name would replace that backup. */
  ghost function RotateStep(cfg: Config, st: Files, stamp: Stamp): Files {
    Files(Pruned(st.backups[stamp := st.active], cfg.maxBackups), [], 0)
  }

  /** The line would exceed the limit of a file that holds something. */
  predicate Rotates(cfg: Config, st: Files, entry: AuditEntry) {
    st.size + cfg.lineSize(entry) > cfg.maxFileSize && st.size > 0
  }

  ghost function StoreStep(cfg: Config, st: Files, entry: AuditEntry, stamp: Stamp): Files {
    var st1 := if Rotates(cfg, st, entry) then RotateStep(cfg, st, stamp) else st;
    Files(st1.backups, st1.active + [entry], st1.size + cfg.lineSize(entry))
  }

  /** The newest timestamp of a file, or the zero time. */
  function Newest(file: seq<AuditEntry>): Time {
    if file == [] then 0
    else
      var before, last := Newest(file[..|file| - 1]), file[|file| - 1].timestamp;
      if last > before then last else before
  }

  predicate Outdated(file: seq<AuditEntry>, cutoff: Time) {
    Newest(file) != 0 && Newest(file) < cutoff
  }

  function CleanupStep(st: Files, cutoff: Time): Files {
    st.(backups := map t | t in st.backups && !Outdated(st.backups[t], cutoff) :: st.backups[t])
  }

  class FileBackend {
    const cfg: Config
    var backups: Backups
    var active: seq<AuditEntry>
    var size: int

    constructor (cfg: Config)
      ensures State() == Files(map[], [], 0) && this.cfg == cfg
    {
      this.cfg := cfg;
      backups, active, size := map[], [], 0;
    }

    function State(): Files
      reads this
    {
      Files(backups, active, size)
    }

    /** glob, then sort.Strings: zero-padded timestamps sort as times. */
    method SortedBackups() returns (order: seq<Stamp>)
      ensures order == Listing(backups.Keys) && forall t :: t in order <==> t in backups
    {
      var names := Keys(backups.Keys);
      LessIsStrictWeakOrder();
      order := Sort(names, Less);
      forall t ensures t in order <==> t in backups {
        assert t in multiset(order) <==> t in multiset(backups.Keys);
      }
      forall i, j | 0 <= i < j < |order| ensures Less(order[i], order[j]) {
        DistinctSorted(order, backups.Keys, i, j);
        LessIsTotal(order[i], order[j]);
      }
      ListingIsUnique(order, Listing(backups.Keys), backups.Keys);
    }

    method Rotate(stamp: Stamp)
      modifies this
      ensures State() == RotateStep(cfg, old(State()), stamp)
    {
      backups := backups[stamp := active];
      PruneBackups();
      active, size := [], 0;
    }

    method PruneBackups()
      modifies `backups
      ensures backups == Pruned(old(backups), cfg.maxBackups)
    {
      hide IsListing, Less, Elements, Listing;
      var matches := SortedBackups();
      if |matches| <= cfg.maxBackups { return; }
      RemoveAll(matches[..|matches| - cfg.maxBackups]);
    }

    method RemoveAll(excess: seq<Stamp>)
      modifies `backups
      ensures backups == old(backups) - Elements(excess)
    {
      for i := 0 to |excess|
        invariant backups == old(backups) - Elements(excess[..i])
      {
        ElementsStep(excess, i);
        backups := backups - {excess[i]};
      }
      assert excess[..|excess|] == excess;
    }

    /** A line that fits, or that comes to an empty file, is appended; otherwise it opens a new file. */
    method Store(entry: AuditEntry, stamp: Stamp)
      modifies this
      ensures State() == StoreStep(cfg, old(State()), entry, stamp)
      ensures old(size) <= 0 || old(size) + cfg.lineSize(entry) <= cfg.maxFileSize ==>
        && backups == old(backups)
        && active == old(active) + [entry]
        && size == old(size) + cfg.lineSize(entry)
      ensures old(size) > 0 && old(size) + cfg.lineSize(entry) > cfg.maxFileSize ==>
        && backups == Pruned(old(backups)[stamp := old(active)], cfg.maxBackups)
        && active == [entry]
        && size == cfg.lineSize(entry)
    {
      if size + cfg.lineSize(entry) > cfg.maxFileSize && size > 0 {
        Rotate(stamp);
      }
      active := active + [entry];
      size := size + cfg.lineSize(entry);
    }

    method ReadAll() returns (all: seq<AuditEntry>)
      ensures all == Contents(State())
    {
      hide IsListing, Less, Joined;
      var order := SortedBackups();
      all := [];
      NoneJoined(backups);
      for i := 0 to |order|
        invariant all == Joined(backups, order[..i])
      {
        assert order[..i + 1] == order[..i] + [order[i]];
        OneMoreJoined(backups, order[..i], order[i]);
        all := all + backups[order[i]];
      }
      assert order[..|order|] == order;
      all := all + active;
    }

    method Query(limit: int, offset: int, filter: Option<AuditFilter>) returns (r: (seq<AuditEntry>, int))
      ensures r == QueryLog(Contents(State()), limit, offset, filter)
    {
      var all := ReadAll();
      var filtered := ScanNewestFirst(all, filter);
      r := Paginate(filtered, limit, offset);
    }

    method Cleanup(cutoff: Time)
      modifies `backups
      ensures State() == CleanupStep(old(State()), cutoff)
    {
      var rest := backups.Keys;
      while rest != {}
        invariant rest <= backups.Keys <= old(backups).Keys
        invariant forall t :: t in backups ==>
          backups[t] == old(backups)[t] && (t in rest || !Outdated(backups[t], cutoff))
        invariant forall t :: t in old(backups) && t !in backups ==> Outdated(old(backups)[t], cutoff)
      {
        var t :| t in rest;
        var outdated := IsOutdated(backups[t], cutoff);
        if outdated {
          backups := backups - {t};
        }
        rest := rest - {t};
      }
    }

    static method IsOutdated(file: seq<AuditEntry>, cutoff: Time) returns (outdated: bool)
      ensures outdated == Outdated(file, cutoff)
    {
      var newest := 0;
      for i := 0 to |file|
        invariant newest == Newest(file[..i])
      {
        assert file[..i + 1][..i] == file[..i];
        if file[i].timestamp > newest { newest := file[i].timestamp; }
      }
      assert file[..|file|] == file;
      outdated := newest != 0 && newest < cutoff;
    }
  }

  lemma DistinctSorted(order: seq<Stamp>, names: set<Stamp>, i: nat, j: nat)
    requires multiset(order) == multiset(names) && i < j < |order|
    ensures order[i] != order[j]
  {
    var x := order[i];
    assert order == order[..i] + [x] + order[i + 1..];
    assert multiset(order) == multiset(order[..i]) + multiset{x} + multiset(order[i + 1..]);
    assert multiset(names)[x] <= 1;
    assert order[j] in order[i + 1..];
  }

  // ----- Changing the directory and reading it -----

  lemma {:induction false} JoinedAppend(backups: Backups, a: seq<Stamp>, b: seq<Stamp>)
    requires forall t :: t in a || t in b ==> t in backups
    ensures Joined(backups, a + b) == Joined(backups, a) + Joined(backups, b)
  {
    hide Joined;
    NoneJoined(backups);
    if b == [] {
      assert a + b == a;
    } else {
      var before, last := b[..|b| - 1], b[|b| - 1];
      assert b == before + [last] && a + b == a + before + [last];
      JoinedAppend(backups, a, before);
      OneMoreJoined(backups, before, last);
      OneMoreJoined(backups, a + before, last);
    }
  }

  lemma {:induction false} JoinedSame(backups: Backups, backups': Backups, order: seq<Stamp>)
    requires forall t :: t in order ==> t in backups && t in backups' && backups[t] == backups'[t]
    ensures Joined(backups, order) == Joined(backups', order)
  {
    if order != [] {
      assert order[|order| - 1] in order;
      JoinedSame(backups, backups', order[..|order| - 1]);
    }
  }

  /** A backup under a later name comes last. */
  lemma RotationAppends(backups: Backups, file: seq<AuditEntry>, stamp: Stamp)
    requires forall t :: t in backups ==> Less(t, stamp)
    ensures var backups' := backups[stamp := file]; var order := Listing(backups.Keys);
      Listing(backups'.Keys) == order + [stamp] && Joined(backups', order + [stamp]) == Joined(backups, order) + file
  {
    var backups', order := backups[stamp := file], Listing(backups.Keys);
    LessIsIrreflexive(stamp);
    assert IsListing(order + [stamp], backups'.Keys);
    ListingIsUnique(order + [stamp], Listing(backups'.Keys), backups'.Keys);
    assert (order + [stamp])[..|order|] == order;
    JoinedSame(backups, backups', order);
  }

  // ----- When a rotation keeps everything -----

  lemma RotationToLatest(st: Files, stamp: Stamp)
    requires stamp in st.backups && st.backups[stamp] != [] && forall t :: t in st.backups ==>
      t == stamp || Less(t, stamp)
    ensures |Log(st.backups[stamp := st.active])| < |Contents(st)|
  {
    hide Less, IsListing, Listing, Joined;
    var backups' := st.backups[stamp := st.active];
    assert backups'.Keys == st.backups.Keys;
    var before := LogEnds(st.backups, stamp);
    var before' := LogEnds(backups', stamp);
    assert before == (before + [stamp])[..|before|] && before' == (before' + [stamp])[..|before'|];
    JoinedSame(st.backups, backups', before);
  }

  /** The listing up to its last name, which holds the end of the log. */
  lemma LogEnds(backups: Backups, last: Stamp) returns (before: seq<Stamp>)
    requires last in backups && forall t :: t in backups ==> t == last || Less(t, last)
    ensures Listing(backups.Keys) == before + [last] && (forall t :: t in before ==> t in backups && t != last)
    ensures Log(backups) == Joined(backups, before) + backups[last]
  {
    hide IsListing;
    var order := Listing(backups.Keys);
    ListsExactly(order, backups.Keys);
    LastIsLatest(order, backups.Keys);
    var end := order[|order| - 1];
    LessIsTotal(last, end);
    before := order[..|order| - 1];
    ListsExactly(before, backups.Keys - {end});
    hide Less, Listing;
    assert order == before + [end] && (before + [end])[..|before|] == before;
  }

  lemma RotationBeforeLatest(st: Files, stamp: Stamp, last: Stamp)
    requires last in st.backups && last != stamp && Less(stamp, last)
    requires forall t :: t in st.backups ==> t == last || Less(t, last)
    requires st.active != [] && st.backups[last] != [] && Distinct(Contents(st))
    ensures Log(st.backups[stamp := st.active]) != Contents(st)
  {
    hide Less, Listing, IsListing, Joined;
    var backups' := st.backups[stamp := st.active];
    var before := LogEnds(backups', last);
    var was := LogEnds(st.backups, last);
    var file, all := st.backups[last], Contents(st);
    var k := |Log(st.backups)| - 1;
    assert all[k] == file[|file| - 1] && all[|all| - 1] == st.active[|st.active| - 1];
    var log' := Log(backups');
    assert log'[|log'| - 1] == file[|file| - 1];
  }

  /**
   With room for one more backup a rotation keeps the whole log in order if and only
   if its stamp sorts after those of all backups: an earlier stamp puts the newest
   entries too early, and one in use overwrites a backup.
   */
  lemma RotationKeepsAllExactly(cfg: Config, st: Files, stamp: Stamp)
    requires |st.backups| < cfg.maxBackups && st.active != [] && Distinct(Contents(st))
    requires forall t :: t in st.backups ==> st.backups[t] != []
    ensures Contents(RotateStep(cfg, st, stamp)) == Contents(st) <==> forall t :: t in st.backups ==> Less(t, stamp)
  {
    hide Less, Listing, IsListing, Joined;
    var backups' := st.backups[stamp := st.active];
    assert backups'.Keys == st.backups.Keys + {stamp};
    assert Pruned(backups', cfg.maxBackups) == backups';
    assert Contents(RotateStep(cfg, st, stamp)) == Log(backups');
    if forall t :: t in st.backups ==> Less(t, stamp) {
      RotationAppends(st.backups, st.active, stamp);
    } else {
      var last := Latest(st.backups.Keys);
      LessIsTotal(stamp, last);
      if stamp == last {
        RotationToLatest(st, stamp);
      } else if Less(stamp, last) {
        RotationBeforeLatest(st, stamp, last);
      } else {
        forall t | t in st.backups ensures Less(t, stamp) {
          LessIsTransitive(t, last, stamp);
        }
      }
    }
  }

  lemma RestIsListing(order: seq<Stamp>, names: set<Stamp>, k: nat)
    requires IsListing(order, names) && k <= |order|
    ensures IsListing(order[k..], names - Elements(order[..k]))
  {
    forall t ensures t in order[k..] <==> t in names - Elements(order[..k]) {
      LessIsIrreflexive(t);
      if t in order {
        var i :| 0 <= i < |order| && order[i] == t;
        assert t in order[..k] <==> i < k;
        assert t in order[k..] <==> k <= i;
      }
    }
    hide Less;
  }

  /** Removing the first `k` backups removes what they hold from the front. */
  lemma RemovalDropsFront(backups: Backups, k: nat)
    requires k <= |Listing(backups.Keys)|
    ensures var order := Listing(backups.Keys); var backups' := backups - Elements(order[..k]);
      && Listing(backups'.Keys) == order[k..]
      && Joined(backups, order) == Joined(backups, order[..k]) + Joined(backups', order[k..])
  {
    RestKeepsItsListing(backups, Listing(backups.Keys), k);
  }

  lemma RestKeepsItsListing(backups: Backups, order: seq<Stamp>, k: nat)
    requires IsListing(order, backups.Keys) && k <= |order|
    ensures var backups' := backups - Elements(order[..k]);
      && Listing(backups'.Keys) == order[k..]
      && Joined(backups, order) == Joined(backups, order[..k]) + Joined(backups', order[k..])
  {
    hide IsListing, Joined, Listing, Elements;
    var gone, rest := order[..k], order[k..];
    var backups' := backups - Elements(gone);
    RestIsListing(order, backups.Keys, k);
    assert backups'.Keys == backups.Keys - Elements(gone);
    ListingIsUnique(rest, Listing(backups'.Keys), backups'.Keys);
    ListsExactly(order, backups.Keys);
    ListsExactly(rest, backups'.Keys);
    assert gone + rest == order;
    JoinedAppend(backups, gone, rest);
    JoinedSame(backups, backups', rest);
  }

  lemma ListsExactly(order: seq<Stamp>, names: set<Stamp>)
    requires IsListing(order, names)
    ensures forall t :: t in order <==> t in names
  {
  }

  // ----- Cleanup -----

  lemma {:induction false} NewestBounds(file: seq<AuditEntry>)
    ensures Newest(file) >= 0 && forall e :: e in file ==> e.timestamp <= Newest(file)
    ensures Newest(file) == 0 || exists e :: e in file && e.timestamp == Newest(file)
  {
    if file != [] {
      NewestBounds(file[..|file| - 1]);
      assert file == file[..|file| - 1] + [file[|file| - 1]];
    }
  }

  /** A cleanup removes whole backups, and no entry at or after the cutoff with them. */
  lemma CleanupSparesTheRecent(st: Files, cutoff: Time, t: Stamp, e: AuditEntry)
    requires t in st.backups && e in st.backups[t] && e.timestamp >= cutoff
    ensures var st' := CleanupStep(st, cutoff); t in st'.backups && st'.backups[t] == st.backups[t]
    ensures CleanupStep(st, cutoff).active == st.active && CleanupStep(st, cutoff).size == st.size
  {
    NewestBounds(st.backups[t]);
  }

  /** A backup goes exactly when it holds a dated entry and nothing at or after the cutoff; the others are unchanged. */
  lemma CleanupRemovesExactly(st: Files, cutoff: Time, t: Stamp)
    requires t in st.backups
    ensures var kept := CleanupStep(st, cutoff).backups; var file := st.backups[t];
      && (t !in kept <==> (exists e :: e in file && e.timestamp > 0) && forall e :: e in file ==> e.timestamp < cutoff)
      && (t in kept ==> kept[t] == file)
  {
    NewestBounds(st.backups[t]);
  }

  ghost predicate TimeOrdered(log: seq<AuditEntry>) {
    forall i, j :: 0 <= i < j < |log| ==> log[i].timestamp <= log[j].timestamp
  }

  /** Every backup holds something, all of it after the zero time. */
  ghost predicate Dated(backups: Backups) {
    forall t :: t in backups ==> backups[t] != [] && forall e :: e in backups[t] ==> e.timestamp > 0
  }

  /** The backup at place `i`, where it stands in the joined log. */
  lemma JoinedAt(backups: Backups, order: seq<Stamp>, i: nat)
    requires i < |order| && forall t :: t in order ==> t in backups
    ensures Joined(backups, order[..i]) + backups[order[i]] == Joined(backups, order[..i + 1]) <= Joined(backups, order)
  {
    JoinedAppend(backups, order[..i + 1], order[i + 1..]);
    assert order == order[..i + 1] + order[i + 1..];
    assert order[..i + 1][..i] == order[..i];
  }

  /** In time order the newest entry of a backup is its last, and is no newer than that of a later backup. */
  lemma NewestAscend(backups: Backups, order: seq<Stamp>, i: nat, j: nat)
    requires i < j < |order| && (forall t :: t in order ==> t in backups) && Dated(backups)
    requires TimeOrdered(Joined(backups, order))
    ensures 0 < Newest(backups[order[i]]) <= Newest(backups[order[j]])
  {
    hide Joined, Newest, TimeOrdered;
    var a, b := backups[order[i]], backups[order[j]];
    JoinedAt(backups, order, i);
    JoinedAt(backups, order, j);
    JoinedAppend(backups, order[..i + 1], order[i + 1..j]);
    assert order[..j] == order[..i + 1] + order[i + 1..j];
    var before, between, all := Joined(backups, order[..i]), Joined(backups, order[i + 1..j]), Joined(backups, order);
    assert all[..|before + a + between + b|] == before + a + between + b;
    NewestBounds(a);
    NewestBounds(b);
    assert a[0] in a;
    var e :| e in a && e.timestamp == Newest(a);
    EarlierIsOlder(before, a, between, b, all, e);
  }

  lemma EarlierIsOlder(before: seq<AuditEntry>, a: seq<AuditEntry>, between: seq<AuditEntry>, b: seq<AuditEntry>,
                       all: seq<AuditEntry>, e: AuditEntry)
    requires TimeOrdered(all) && before + a + between + b <= all && e in a && b != []
    ensures e.timestamp <= b[0].timestamp && b[0] in b
  {
    var k :| 0 <= k < |a| && a[k] == e;
    assert all[|before| + k] == e && all[|before| + |a| + |between|] == b[0];
  }

  // ----- Whole runs -----

  datatype Event = Store(entry: AuditEntry, stamp: Stamp) | Cleanup(cutoff: Time)

  /** The files, and everything ever stored. */
  datatype Run = Run(files: Files, history: seq<AuditEntry>)

  const Start := Run(Files(map[], [], 0), [])

  /**
   The stamp sorts after those of all backups, or that makes no difference: none are
   kept, or it is that of the latest backup and no other stays beside it.
   */
  ghost predicate InOrder(cfg: Config, backups: Backups, stamp: Stamp) {
    || cfg.maxBackups == 0
    || (forall t :: t in backups ==> Less(t, stamp))
    || ((forall t :: t in backups ==> t == stamp || Less(t, stamp))
        && (cfg.maxBackups == 1 || backups.Keys == {stamp}))
  }

  /** Entries arrive in time order; a rotation, when there is one, is named in order. */
  ghost predicate Enabled(cfg: Config, r: Run, e: Event) {
    e.Store? ==>
      && e.entry.timestamp > 0 && (forall h :: h in r.history ==> h.timestamp <= e.entry.timestamp)
      && (Rotates(cfg, r.files, e.entry) ==> InOrder(cfg, r.files.backups, e.stamp))
  }

  ghost function Next(cfg: Config, r: Run, e: Event): Run {
    match e
    case Store(entry, stamp) => Run(StoreStep(cfg, r.files, entry, stamp), r.history + [entry])
    case Cleanup(cutoff) => Run(CleanupStep(r.files, cutoff), r.history)
  }

  ghost function After(cfg: Config, r: Run, events: seq<Event>): Run
    decreases |events|
  {
    if |events| == 0 then r else After(cfg, Next(cfg, r, events[0]), events[1..])
  }

  ghost predicate Legal(cfg: Config, r: Run, events: seq<Event>)
    decreases |events|
  {
    |events| == 0 || (Enabled(cfg, r, events[0]) && Legal(cfg, Next(cfg, r, events[0]), events[1..]))
  }

  ghost predicate IsSuffix(s: seq<AuditEntry>, log: seq<AuditEntry>) {
    |s| <= |log| && s == log[|log| - |s|..]
  }

  /** Within the limit, or a single line that no file could hold otherwise. */
  ghost predicate Fits(cfg: Config, file: seq<AuditEntry>) {
    Bytes(cfg, file) <= cfg.maxFileSize || |file| <= 1
  }

  ghost predicate Sound(cfg: Config, r: Run) {
    && IsSuffix(Contents(r.files), r.history)
    && r.files.size == Bytes(cfg, r.files.active) && Fits(cfg, r.files.active)
    && |r.files.backups| <= cfg.maxBackups
    && (forall t :: t in r.files.backups ==> Fits(cfg, r.files.backups[t]) && r.files.backups[t] != [])
    && TimeOrdered(r.history) && forall h :: h in r.history ==> h.timestamp > 0
  }

  lemma ActiveHoldsBytes(cfg: Config, file: seq<AuditEntry>, entry: AuditEntry)
    ensures Bytes(cfg, file + [entry]) == Bytes(cfg, file) + cfg.lineSize(entry)
    ensures Bytes(cfg, file) > 0 <==> file != []
  {
    assert (file + [entry])[..|file|] == file;
  }

  lemma PruningDropsFront(backups: Backups, maxBackups: nat) returns (front: seq<AuditEntry>)
    ensures var kept := Pruned(backups, maxBackups);
      Log(backups) == front + Log(kept) && |kept| <= maxBackups
  {
    hide IsListing, Less, Listing, Joined;
    var order := Listing(backups.Keys);
    ListingCovers(backups.Keys);
    if |order| > maxBackups {
      var k := |order| - maxBackups;
      RemovalDropsFront(backups, k);
      front := Joined(backups, order[..k]);
      var kept := backups - Elements(order[..k]);
      assert Pruned(backups, maxBackups) == kept;
      assert |kept| == |kept.Keys| == |Listing(kept.Keys)| == maxBackups;
    } else {
      front := [];
      assert |backups| == |backups.Keys| == |order|;
      assert front + Log(backups) == Log(backups);
    }
  }

  lemma PruningKeepsSome(backups: Backups, maxBackups: nat)
    ensures var kept := Pruned(backups, maxBackups); forall t :: t in kept ==> t in backups && kept[t] == backups[t]
    ensures |Pruned(backups, maxBackups)| == if |backups| <= maxBackups then |backups| else maxBackups
  {
    hide IsListing, Less, Listing, Elements;
    var order := Listing(backups.Keys);
    if |order| > maxBackups {
      RestKeepsSize(backups, |order| - maxBackups);
    }
  }

  lemma RestKeepsSize(backups: Backups, k: nat)
    requires k <= |Listing(backups.Keys)|
    ensures |backups - Elements(Listing(backups.Keys)[..k])| == |backups| - k
  {
    hide IsListing, Less, Listing, Joined;
    RemovalDropsFront(backups, k);
    var kept := backups - Elements(Listing(backups.Keys)[..k]);
    assert |kept| == |kept.Keys| == |Listing(kept.Keys)|;
    assert |backups| == |backups.Keys|;
  }

  lemma LatestStays(backups: Backups, maxBackups: nat, last: Stamp)
    requires maxBackups >= 1 && last in backups && forall t :: t in backups ==> t == last || Less(t, last)
    ensures last in Pruned(backups, maxBackups)
  {
    hide Less, Listing, IsListing, Joined;
    var before := LogEnds(backups, last);
    var order := Listing(backups.Keys);
    if |order| > maxBackups {
      var k := |order| - maxBackups;
      assert order[..k] == before[..k];
      assert forall t :: t in before[..k] ==> t in before;
    }
  }

  lemma OnlyBackup(backups: Backups, stamp: Stamp)
    requires backups.Keys == {stamp}
    ensures Log(backups) == backups[stamp]
  {
    hide Less, Listing, IsListing, Joined;
    assert forall t :: t in backups ==> t == stamp;
    var before := LogEnds(backups, stamp);
    assert forall t :: t !in before;
    assert before == [];
    NoneJoined(backups);
  }

  lemma NoBackups(backups: Backups)
    requires |backups| == 0
    ensures Log(backups) == []
  {
  }

  /** A rotation in order drops only from the front. */
  lemma InOrderKeepsSuffix(cfg: Config, st: Files, stamp: Stamp)
    requires InOrder(cfg, st.backups, stamp)
    ensures var st' := RotateStep(cfg, st, stamp);
      IsSuffix(Contents(st'), Contents(st)) && |st'.backups| <= cfg.maxBackups
  {
    hide Less, Listing, IsListing, Joined, Pruned, Log;
    var backups' := st.backups[stamp := st.active];
    var kept := Pruned(backups', cfg.maxBackups);
    PruningKeepsSome(backups', cfg.maxBackups);
    assert Contents(RotateStep(cfg, st, stamp)) == Log(kept);
    if cfg.maxBackups == 0 {
      NoBackups(kept);
    } else if forall t :: t in st.backups ==> Less(t, stamp) {
      AppendedLog(st, stamp);
      var front := PruningDropsFront(backups', cfg.maxBackups);
    } else {
      LatestStays(backups', cfg.maxBackups, stamp);
      OneKept(kept, stamp, cfg.maxBackups);
      OnlyBackup(kept, stamp);
    }
  }

  lemma AppendedLog(st: Files, stamp: Stamp)
    requires forall t :: t in st.backups ==> Less(t, stamp)
    ensures Log(st.backups[stamp := st.active]) == Contents(st)
  {
    hide Less, Listing, IsListing, Joined;
    RotationAppends(st.backups, st.active, stamp);
  }

  lemma OneKept(kept: Backups, stamp: Stamp, maxBackups: nat)
    requires stamp in kept && |kept| <= maxBackups && (maxBackups == 1 || forall t :: t in kept ==> t == stamp)
    ensures kept.Keys == {stamp}
  {
    assert |kept.Keys - {stamp}| == |kept.Keys| - 1 && |kept| == |kept.Keys|;
    assert maxBackups == 1 ==> kept.Keys - {stamp} == {};
    assert kept.Keys == {stamp} + (kept.Keys - {stamp});
  }

  /** When a later backup stays, the log ends with it instead of the newest entries. */
  lemma EarlierStampBreaks(cfg: Config, st: Files, stamp: Stamp, last: Stamp)
    requires cfg.maxBackups >= 1 && last in st.backups && Less(stamp, last) && last != stamp
    requires forall t :: t in st.backups ==> t == last || Less(t, last)
    requires st.active != [] && st.backups[last] != [] && Distinct(Contents(st))
    ensures !IsSuffix(Contents(RotateStep(cfg, st, stamp)), Contents(st))
  {
    hide Less, Listing, IsListing, Joined, Pruned, Log;
    var backups' := st.backups[stamp := st.active];
    var kept := Pruned(backups', cfg.maxBackups);
    PruningKeepsSome(backups', cfg.maxBackups);
    LatestStays(backups', cfg.maxBackups, last);
    var before' := LogEnds(kept, last);
    var before := LogEnds(st.backups, last);
    assert Contents(RotateStep(cfg, st, stamp)) == Log(kept);
    EndsDiffer(Joined(kept, before'), Joined(st.backups, before), st.backups[last], st.active);
  }

  lemma SuffixAt(s: seq<AuditEntry>, log: seq<AuditEntry>, k: nat)
    requires k < |s|
    ensures IsSuffix(s, log) ==> s[k] == log[|log| - |s| + k]
  {
  }

  lemma EndsDiffer(x: seq<AuditEntry>, y: seq<AuditEntry>, file: seq<AuditEntry>, active: seq<AuditEntry>)
    requires file != [] && active != [] && Distinct(y + file + active)
    ensures !IsSuffix(x + file, y + file + active)
  {
    var all, s := y + file + active, x + file;
    assert all[|y| + |file| - 1] == file[|file| - 1] == s[|s| - 1];
    assert all[|all| - 1] == active[|active| - 1];
    SuffixAt(s, all, |s| - 1);
  }

  /** When the stamp of the latest backup is used again and another backup stays, a gap opens between the two. */
  lemma ReusedStampBreaks(cfg: Config, st: Files, stamp: Stamp)
    requires cfg.maxBackups >= 2 && stamp in st.backups && st.backups.Keys != {stamp}
    requires forall t :: t in st.backups ==> t == stamp || Less(t, stamp)
    requires (forall t :: t in st.backups ==> st.backups[t] != []) && Distinct(Contents(st))
    ensures !IsSuffix(Contents(RotateStep(cfg, st, stamp)), Contents(st))
  {
    hide Less, Listing, IsListing, Joined, Pruned, Log, Distinct, IsSuffix;
    var backups' := st.backups[stamp := st.active];
    var kept := Pruned(backups', cfg.maxBackups);
    assert backups'.Keys == st.backups.Keys && |backups'| == |backups'.Keys|;
    PruningKeepsSome(backups', cfg.maxBackups);
    LatestStays(backups', cfg.maxBackups, stamp);
    var before' := LogEnds(kept, stamp);
    var before := LogEnds(st.backups, stamp);
    assert Contents(RotateStep(cfg, st, stamp)) == Log(kept);
    TwoStay(backups', kept, stamp, cfg.maxBackups);
    var p := before'[|before'| - 1];
    assert p in before' && p in st.backups && p != stamp;
    LastJoined(kept, before');
    BeforeLatest(st.backups, before, stamp, p);
    JoinedHolds(st.backups, before, p);
    GapOpens(Joined(kept, before'), Joined(st.backups, before), st.backups[stamp], st.active);
  }

  lemma BeforeLatest(backups: Backups, before: seq<Stamp>, last: Stamp, p: Stamp)
    requires Listing(backups.Keys) == before + [last] && p in backups && p != last
    ensures p in before
  {
    ListingCovers(backups.Keys);
    assert p in before + [last];
  }

  lemma TwoStay(backups: Backups, kept: Backups, stamp: Stamp, maxBackups: nat)
    requires stamp in backups && backups.Keys != {stamp} && maxBackups >= 2
    requires |kept| == if |backups| <= maxBackups then |backups| else maxBackups
    ensures |Listing(kept.Keys)| >= 2
  {
    hide Listing, IsListing;
    var t :| t in backups.Keys && t != stamp;
    assert {t, stamp} <= backups.Keys;
    assert |backups.Keys - {t, stamp}| + |{t, stamp}| == |backups.Keys| == |backups|;
    assert |kept| == |kept.Keys|;
  }

  lemma LastJoined(backups: Backups, before: seq<Stamp>)
    requires before != [] && forall t :: t in before ==> t in backups && backups[t] != []
    ensures var last := backups[before[|before| - 1]]; var joined := Joined(backups, before);
      joined != [] && joined[|joined| - 1] == last[|last| - 1] && last != []
  {
  }

  lemma JoinedHolds(backups: Backups, order: seq<Stamp>, t: Stamp)
    requires t in order && forall u :: u in order ==> u in backups
    ensures forall e :: e in backups[t] ==> e in Joined(backups, order)
  {
    hide Joined;
    var i :| 0 <= i < |order| && order[i] == t;
    JoinedAt(backups, order, i);
    assert forall e :: e in backups[t] ==> e in Joined(backups, order[..i]) + backups[t];
  }

  lemma GapOpens(x: seq<AuditEntry>, y: seq<AuditEntry>, file: seq<AuditEntry>, active: seq<AuditEntry>)
    requires x != [] && x[|x| - 1] in y && file != [] && Distinct(y + file + active)
    ensures !IsSuffix(x + active, y + file + active)
  {
    var all, s := y + file + active, x + active;
    var i :| 0 <= i < |y| && y[i] == x[|x| - 1];
    assert all[i] == y[i] && all[|y| + |file| - 1] == file[|file| - 1];
    assert s[|x| - 1] == x[|x| - 1];
    SuffixAt(s, all, |x| - 1);
  }

  /**
   In any directory, full or not, whose files hold something and whose entries
   differ, a rotation leaves a suffix of the log if and only if its stamp is in order.
   */
  lemma RotationKeepsSuffixExactly(cfg: Config, st: Files, stamp: Stamp)
    requires st.active != [] && (forall t :: t in st.backups ==> st.backups[t] != []) && Distinct(Contents(st))
    ensures IsSuffix(Contents(RotateStep(cfg, st, stamp)), Contents(st)) <==> InOrder(cfg, st.backups, stamp)
  {
    hide Less, Listing, IsListing, Joined, Pruned, Log, IsSuffix, Contents, Distinct;
    if InOrder(cfg, st.backups, stamp) {
      InOrderKeepsSuffix(cfg, st, stamp);
    } else {
      var last := Latest(st.backups.Keys);
      LessIsTotal(stamp, last);
      if stamp == last {
        ReusedStampBreaks(cfg, st, stamp);
      } else if Less(stamp, last) {
        EarlierStampBreaks(cfg, st, stamp, last);
      } else {
        forall t | t in st.backups ensures Less(t, stamp) {
          LessIsTransitive(t, last, stamp);
        }
      }
    }
  }

  /** A rotation in order moves the active file behind the backups and drops from the front. */
  lemma RotationKeepsSuffix(cfg: Config, st: Files, stamp: Stamp, history: seq<AuditEntry>)
    requires IsSuffix(Contents(st), history) && InOrder(cfg, st.backups, stamp)
    ensures var st' := RotateStep(cfg, st, stamp);
      IsSuffix(Contents(st'), history) && |st'.backups| <= cfg.maxBackups
  {
    hide Contents, RotateStep, InOrder;
    InOrderKeepsSuffix(cfg, st, stamp);
  }

  lemma DroppedFrontIsSuffix(front: seq<AuditEntry>, rest: seq<AuditEntry>, log: seq<AuditEntry>)
    requires IsSuffix(front + rest, log)
    ensures IsSuffix(rest, log)
  {
  }

  lemma SuffixGrows(s: seq<AuditEntry>, log: seq<AuditEntry>, entry: AuditEntry)
    requires IsSuffix(s, log)
    ensures IsSuffix(s + [entry], log + [entry])
  {
  }

  lemma RotationKeepsFiles(cfg: Config, st: Files, stamp: Stamp)
    requires (forall t :: t in st.backups ==> Fits(cfg, st.backups[t]) && st.backups[t] != [])
    requires Fits(cfg, st.active) && st.active != []
    ensures var st' := RotateStep(cfg, st, stamp);
      forall t :: t in st'.backups ==> Fits(cfg, st'.backups[t]) && st'.backups[t] != []
  {
    hide Fits, Listing;
  }

  lemma StoreKeeps(cfg: Config, r: Run, e: Event)
    requires Sound(cfg, r) && Enabled(cfg, r, e) && e.Store?
    ensures Sound(cfg, Next(cfg, r, e))
  {
    hide Less, IsSuffix, Contents, RotateStep, TimeOrdered, Bytes, InOrder;
    var st := r.files;
    StaysTimeOrdered(r.history, e.entry);
    ActiveHoldsBytes(cfg, st.active, e.entry);
    ActiveHoldsBytes(cfg, [], e.entry);
    if Rotates(cfg, st, e.entry) {
      RotationKeepsSuffix(cfg, st, e.stamp, r.history);
      RotationKeepsFiles(cfg, st, e.stamp);
      st := RotateStep(cfg, st, e.stamp);
      assert st.size == 0 && st.active == [] by { RotationEmpties(cfg, r.files, e.stamp); }
    }
    SuffixGrows(Contents(st), r.history, e.entry);
    ContentsGrows(st, e.entry, cfg.lineSize(e.entry));
  }

  lemma StaysTimeOrdered(log: seq<AuditEntry>, entry: AuditEntry)
    requires TimeOrdered(log) && forall h :: h in log ==> h.timestamp <= entry.timestamp
    ensures TimeOrdered(log + [entry])
  {
  }

  lemma RotationEmpties(cfg: Config, st: Files, stamp: Stamp)
    ensures RotateStep(cfg, st, stamp).size == 0 && RotateStep(cfg, st, stamp).active == []
  {
  }

  lemma ContentsGrows(st: Files, entry: AuditEntry, n: int)
    ensures Contents(Files(st.backups, st.active + [entry], st.size + n)) == Contents(st) + [entry]
  {
  }

  lemma ListingCovers(names: set<Stamp>)
    ensures forall t :: t in Listing(names) <==> t in names
  {
  }

  lemma BackupHoldsOnlyLog(b: Backups, t: Stamp)
    requires t in b
    ensures forall e :: e in b[t] ==> e in Log(b)
  {
    hide Less, Listing, IsListing, Joined;
    var order := Listing(b.Keys);
    ListingCovers(b.Keys);
    var i :| 0 <= i < |order| && order[i] == t;
    JoinedAt(b, order, i);
    assert forall e :: e in b[t] ==> e in Joined(b, order[..i]) + b[t];
  }

  lemma BackupsAreDated(cfg: Config, r: Run)
    requires Sound(cfg, r)
    ensures Dated(r.files.backups) && TimeOrdered(Log(r.files.backups))
  {
    hide Less, Bytes, Fits, Joined, Listing, IsListing, Log;
    var b := r.files.backups;
    LogIsInHistory(r);
    forall t | t in b ensures forall e: AuditEntry :: e in b[t] ==> e.timestamp > 0 {
      BackupHoldsOnlyLog(b, t);
    }
  }

  lemma LogIsInHistory(r: Run)
    requires IsSuffix(Contents(r.files), r.history) && TimeOrdered(r.history)
    ensures TimeOrdered(Log(r.files.backups)) && forall e :: e in Log(r.files.backups) ==> e in r.history
  {
    hide Joined, Listing;
    var log, base := Log(r.files.backups), |r.history| - |Contents(r.files)|;
    assert forall i :: 0 <= i < |log| ==> log[i] == r.history[base + i];
  }

  /** The place of the first backup that is not outdated; the outdated ones are exactly those before it. */
  lemma FirstRecent(b: Backups, order: seq<Stamp>, cutoff: Time) returns (k: nat)
    requires (forall t :: t in order ==> t in b) && Dated(b) && TimeOrdered(Joined(b, order))
    ensures k <= |order|
    ensures forall i :: 0 <= i < |order| ==> (Outdated(b[order[i]], cutoff) <==> i < k)
  {
    hide Newest;
    k := 0;
    while k < |order| && Outdated(b[order[k]], cutoff)
      invariant k <= |order|
      invariant forall i :: 0 <= i < k ==> Outdated(b[order[i]], cutoff)
    {
      k := k + 1;
    }
    forall i | k < i < |order| ensures !Outdated(b[order[i]], cutoff) {
      NewestAscend(b, order, k, i);
      NewestBounds(b[order[k]]);
    }
  }

  lemma CleanupIsRemoval(st: Files, order: seq<Stamp>, k: nat, cutoff: Time)
    requires (forall t :: t in order <==> t in st.backups) && k <= |order|
    requires forall i :: 0 <= i < |order| ==> (Outdated(st.backups[order[i]], cutoff) <==> i < k)
    ensures CleanupStep(st, cutoff).backups == st.backups - Elements(order[..k])
  {
    hide Outdated;
    forall t | t in st.backups ensures Outdated(st.backups[t], cutoff) <==> t in order[..k] {
      var i :| 0 <= i < |order| && order[i] == t;
    }
  }

  /** The outdated backups are the first ones, so a cleanup drops from the front. */
  lemma CleanupKeeps(cfg: Config, r: Run, e: Event)
    requires Sound(cfg, r) && e.Cleanup?
    ensures Sound(cfg, Next(cfg, r, e))
  {
    hide Contents, IsSuffix, Bytes, Fits, Outdated, TimeOrdered;
    CleanupKeepsSuffix(cfg, r, e.cutoff);
    CleanupOnlyRemoves(r.files, e.cutoff);
  }

  lemma CleanupOnlyRemoves(st: Files, cutoff: Time)
    ensures var b := CleanupStep(st, cutoff).backups;
      |b| <= |st.backups| && forall t :: t in b ==> t in st.backups && b[t] == st.backups[t]
  {
    hide Outdated;
    var b := CleanupStep(st, cutoff).backups;
    assert b.Keys <= st.backups.Keys;
    assert |st.backups.Keys - b.Keys| + |b.Keys| == |st.backups.Keys|;
  }

  lemma CleanupKeepsSuffix(cfg: Config, r: Run, cutoff: Time)
    requires Sound(cfg, r)
    ensures IsSuffix(Contents(CleanupStep(r.files, cutoff)), r.history)
  {
    hide Sound, Log, CleanupStep, IsSuffix, Listing, IsListing, Less;
    SoundParts(cfg, r);
    var k := OutdatedAreFirst(cfg, r, cutoff);
    var front := FirstRemoved(r.files.backups, k);
    var st' := CleanupStep(r.files, cutoff);
    CleanupLeavesActive(r.files, cutoff);
    assert Contents(r.files) == front + Contents(st');
    DroppedFrontIsSuffix(front, Contents(st'), r.history);
  }

  lemma CleanupLeavesActive(st: Files, cutoff: Time)
    ensures CleanupStep(st, cutoff).active == st.active
  {
  }

  /** A cleanup removes the backups up to some place in the listing. */
  lemma OutdatedAreFirst(cfg: Config, r: Run, cutoff: Time) returns (k: nat)
    requires Sound(cfg, r)
    ensures k <= |Listing(r.files.backups.Keys)|
    ensures CleanupStep(r.files, cutoff).backups ==
      r.files.backups - Elements(Listing(r.files.backups.Keys)[..k])
  {
    hide Sound, Log, CleanupStep, Listing, IsListing, Less, Joined, Outdated, Dated, TimeOrdered, Elements;
    BackupsAreDated(cfg, r);
    LogIsJoined(r.files.backups);
    k := FirstRecent(r.files.backups, Listing(r.files.backups.Keys), cutoff);
    CleanupIsRemoval(r.files, Listing(r.files.backups.Keys), k, cutoff);
  }

  lemma FirstRemoved(backups: Backups, k: nat) returns (front: seq<AuditEntry>)
    requires k <= |Listing(backups.Keys)|
    ensures Log(backups) == front + Log(backups - Elements(Listing(backups.Keys)[..k]))
  {
    hide Listing, IsListing, Less, Joined, Elements, Log;
    RemovalDropsFront(backups, k);
    LogIsJoined(backups);
    LogIsJoined(backups - Elements(Listing(backups.Keys)[..k]));
    front := Joined(backups, Listing(backups.Keys)[..k]);
  }

  lemma SoundParts(cfg: Config, r: Run)
    requires Sound(cfg, r)
    ensures IsSuffix(Contents(r.files), r.history) && TimeOrdered(r.history)
  {
  }

  lemma LogIsJoined(backups: Backups)
    ensures forall t :: t in Listing(backups.Keys) <==> t in backups
    ensures Log(backups) == Joined(backups, Listing(backups.Keys))
  {
  }

  /**
   Every run keeps a suffix of what was stored, in files that fit, no more
   backups than allowed, and a size that is the active file's.
   */
  lemma {:induction false} FileLogIsSuffix(cfg: Config, r: Run, events: seq<Event>)
    requires Sound(cfg, r) && Legal(cfg, r, events)
    ensures Sound(cfg, After(cfg, r, events))
    decreases |events|
  {
    if |events| > 0 {
      if events[0].Store? { StoreKeeps(cfg, r, events[0]); } else { CleanupKeeps(cfg, r, events[0]); }
      hide Sound, Next, Enabled;
      FileLogIsSuffix(cfg, Next(cfg, r, events[0]), events[1..]);
    }
  }

  lemma StartIsSound(cfg: Config)
    ensures Sound(cfg, Start)
  {
    hide Less;
    var none: Backups := map[];
    assert Listing(none.Keys) == [];
    assert Contents(Start.files) == [];
  }
}
