/**
 When the file backend rotates: what a store does to the directory, how full
 every rotated file is in every run, and which runs lose nothing.
 */
module AuditRotation {
  import opened Seqs
  import opened AuditEntries
  import opened Sorting
  import opened AuditFile

  /** The files named by `order`. */
  ghost function FilesOf(backups: Backups, order: seq<Stamp>): (files: seq<seq<AuditEntry>>)
    requires forall t :: t in order ==> t in backups
    ensures |files| == |order| && forall i :: 0 <= i < |order| ==> files[i] == backups[order[i]]
  {
    if order == [] then []
    else
      var last := order[|order| - 1];
      assert last in order;
      FilesOf(backups, order[..|order| - 1]) + [backups[last]]
  }

  /** Every file of the directory, the oldest first and the active one last. */
  ghost function AllFiles(st: Files): (files: seq<seq<AuditEntry>>)
    ensures |files| == |Listing(st.backups.Keys)| + 1 && files[|files| - 1] == st.active
  {
    LogIsJoined(st.backups);
    FilesOf(st.backups, Listing(st.backups.Keys)) + [st.active]
  }

  /** The file at place `i` had no room for the first line of the next. */
  ghost predicate Filled(cfg: Config, files: seq<seq<AuditEntry>>, i: nat)
    requires i + 1 < |files|
  {
    files[i + 1] != [] && Bytes(cfg, files[i]) + cfg.lineSize(files[i + 1][0]) > cfg.maxFileSize
  }

  ghost predicate Packed(cfg: Config, files: seq<seq<AuditEntry>>) {
    forall i: nat :: i + 1 < |files| ==> Filled(cfg, files, i)
  }

  // ----- Pruning keeps the latest -----

  /** The backups left after pruning are the latest, as many as allowed, and unchanged. */
  lemma PruningKeepsTheLatest(backups: Backups, maxBackups: nat)
    ensures var kept := Pruned(backups, maxBackups);
      && (forall t :: t in kept ==> t in backups && kept[t] == backups[t])
      && |kept| == (if |backups| <= maxBackups then |backups| else maxBackups)
      && (forall t, u :: t in kept && u in backups && u !in kept ==> Less(u, t))
  {
    hide Less, Listing, IsListing;
    PruningKeepsSome(backups, maxBackups);
    var order, kept := Listing(backups.Keys), Pruned(backups, maxBackups);
    ListingCovers(backups.Keys);
    forall t, u | t in kept && u in backups && u !in kept ensures Less(u, t) {
      var k := |order| - maxBackups;
      var i :| 0 <= i < |order| && order[i] == t;
      var gone := order[..k];
      assert u in gone && t !in gone;
      var j :| 0 <= j < k && gone[j] == u;
      InPrefix(order, k, i);
      ListingAscends(backups.Keys, j, i);
    }
  }

  lemma InPrefix(order: seq<Stamp>, k: nat, i: nat)
    requires k <= |order| && i < |order|
    ensures i < k ==> order[i] in order[..k]
  {
    if i < k { assert order[..k][i] == order[i]; }
  }

  lemma ListingAscends(names: set<Stamp>, i: nat, j: nat)
    requires i < j < |Listing(names)|
    ensures Less(Listing(names)[i], Listing(names)[j])
  {
  }

  // ----- The files after a step -----

  lemma FilesOfSame(backups: Backups, backups': Backups, order: seq<Stamp>, order': seq<Stamp>, k: nat)
    requires k <= |order| && order' == order[k..]
    requires (forall t :: t in order ==> t in backups) && forall t :: t in order' ==> t in backups'
    requires forall t :: t in order' && t in backups ==> backups'[t] == backups[t]
    ensures FilesOf(backups', order') == FilesOf(backups, order)[k..]
  {
    hide FilesOf;
    forall i | 0 <= i < |order'| ensures backups'[order'[i]] == backups[order[k + i]] {
      assert order'[i] == order[k + i] && order'[i] in order';
    }
  }

  /** A rotation in order closes the active file, and may drop files from the front. */
  lemma RotationFiles(cfg: Config, st: Files, stamp: Stamp) returns (k: nat)
    requires InOrder(cfg, st.backups, stamp)
    ensures k <= |AllFiles(st)| && AllFiles(RotateStep(cfg, st, stamp)) == AllFiles(st)[k..] + [[]]
    ensures (forall t :: t in st.backups ==> Less(t, stamp)) ==>
      k == (if |st.backups| < cfg.maxBackups then 0 else |st.backups| + 1 - cfg.maxBackups)
  {
    hide Less, Listing, IsListing, FilesOf, Pruned;
    var backups' := st.backups[stamp := st.active];
    var kept := Pruned(backups', cfg.maxBackups);
    PruningKeepsSome(backups', cfg.maxBackups);
    ListingCovers(kept.Keys);
    ListingSizes(st.backups);
    ListingSizes(kept);
    if forall t :: t in st.backups ==> Less(t, stamp) {
      k := LaterRotationFiles(cfg, st, stamp);
    } else if cfg.maxBackups == 0 {
      k := |AllFiles(st)|;
    } else {
      LatestStays(backups', cfg.maxBackups, stamp);
      OneKept(kept, stamp, cfg.maxBackups);
      assert Listing(kept.Keys) == [stamp] by {
        assert Listing(kept.Keys)[0] in Listing(kept.Keys);
      }
      k := |AllFiles(st)| - 1;
    }
  }

  lemma ListingSizes(backups: Backups)
    ensures |Listing(backups.Keys)| == |backups|
  {
    assert |backups| == |backups.Keys|;
  }

  lemma LaterRotationFiles(cfg: Config, st: Files, stamp: Stamp) returns (k: nat)
    requires forall t :: t in st.backups ==> Less(t, stamp)
    ensures k == (if |st.backups| < cfg.maxBackups then 0 else |st.backups| + 1 - cfg.maxBackups) <= |AllFiles(st)|
    ensures AllFiles(RotateStep(cfg, st, stamp)) == AllFiles(st)[k..] + [[]]
  {
    hide Less, Listing, IsListing, FilesOf, Elements, AllFiles, BackupFiles, Pruned;
    var backups', st' := st.backups[stamp := st.active], RotateStep(cfg, st, stamp);
    ClosedFiles(st, stamp);
    k := if |st.backups| < cfg.maxBackups then 0 else |st.backups| + 1 - cfg.maxBackups;
    PruningDropsFirst(backups', cfg.maxBackups, k);
    PrunedFiles(backups', k, []);
    assert AllFiles(Files(st'.backups, [], st'.size)) == AllFiles(st');
  }

  lemma PruningDropsFirst(backups: Backups, maxBackups: nat, k: nat)
    requires var n := |Listing(backups.Keys)|; k == if n <= maxBackups then 0 else n - maxBackups
    ensures Pruned(backups, maxBackups) == backups - Elements(Listing(backups.Keys)[..k])
  {
    hide Listing, IsListing;
    if k == 0 {
      assert Elements(Listing(backups.Keys)[..0]) == {};
      assert backups - {} == backups;
    }
  }

  /** The files of the backups alone. */
  ghost function BackupFiles(backups: Backups): seq<seq<AuditEntry>> {
    LogIsJoined(backups);
    FilesOf(backups, Listing(backups.Keys))
  }

  lemma NamedFiles(backups: Backups, active: seq<AuditEntry>)
    ensures forall size: int :: AllFiles(Files(backups, active, size)) == BackupFiles(backups) + [active]
  {
    hide Listing, FilesOf;
  }

  lemma ClosedFiles(st: Files, stamp: Stamp)
    requires forall t :: t in st.backups ==> Less(t, stamp)
    ensures var backups' := st.backups[stamp := st.active];
      BackupFiles(backups') == AllFiles(st) && |Listing(backups'.Keys)| == |st.backups| + 1
  {
    hide Less, Listing, IsListing, FilesOf;
    var backups', order := st.backups[stamp := st.active], Listing(st.backups.Keys);
    RotationAppends(st.backups, st.active, stamp);
    ListingCovers(st.backups.Keys);
    ListingCovers(backups'.Keys);
    LessIsIrreflexive(stamp);
    ListingSizes(st.backups);
    FilesOfSame(st.backups, backups', order, order, 0);
    assert forall i :: 0 <= i < |order| ==> order[i] in order;
  }

  lemma PrunedFiles(backups: Backups, k: nat, active: seq<AuditEntry>)
    requires k <= |Listing(backups.Keys)|
    ensures var rest := backups - Elements(Listing(backups.Keys)[..k]);
      forall size: int :: AllFiles(Files(rest, active, size)) == BackupFiles(backups)[k..] + [active]
  {
    hide Listing, IsListing, FilesOf, Elements, AllFiles;
    var order := Listing(backups.Keys);
    var rest := backups - Elements(order[..k]);
    RemovalDropsFront(backups, k);
    ListingCovers(backups.Keys);
    ListingCovers(rest.Keys);
    RestIsUnchanged(backups, Elements(order[..k]));
    FilesOfSame(backups, rest, order, order[k..], k);
    NamedFiles(rest, active);
  }

  lemma RestIsUnchanged(backups: Backups, gone: set<Stamp>)
    ensures forall t :: t in backups - gone ==> (backups - gone)[t] == backups[t]
  {
  }

  /** A cleanup drops files from the front, never the active one. */
  lemma CleanupFiles(cfg: Config, r: Run, cutoff: Time) returns (k: nat)
    requires Sound(cfg, r)
    ensures k < |AllFiles(r.files)| && AllFiles(CleanupStep(r.files, cutoff)) == AllFiles(r.files)[k..]
  {
    hide Sound, Listing, IsListing, FilesOf, Elements, CleanupStep, AllFiles, BackupFiles;
    var st, st' := r.files, CleanupStep(r.files, cutoff);
    k := OutdatedAreFirst(cfg, r, cutoff);
    CleanupLeavesActive(st, cutoff);
    PrunedFiles(st.backups, k, st.active);
    NamedFiles(st.backups, st.active);
    assert AllFiles(Files(st'.backups, st.active, st'.size)) == AllFiles(st');
    assert AllFiles(Files(st.backups, st.active, st.size)) == AllFiles(st);
    assert (BackupFiles(st.backups) + [st.active])[k..] == BackupFiles(st.backups)[k..] + [st.active];
  }

  // ----- Every rotated file was full -----

  lemma PackedRest(cfg: Config, files: seq<seq<AuditEntry>>, k: nat)
    requires Packed(cfg, files) && k <= |files|
    ensures Packed(cfg, files[k..])
  {
    hide Bytes;
    forall i: nat | i + 1 < |files[k..]| ensures Filled(cfg, files[k..], i) {
      assert Filled(cfg, files, k + i);
    }
  }

  lemma PackedBefore(cfg: Config, files: seq<seq<AuditEntry>>)
    requires Packed(cfg, files) && files != []
    ensures Packed(cfg, files[..|files| - 1])
  {
    hide Bytes;
    var before := files[..|files| - 1];
    forall i: nat | i + 1 < |before| ensures Filled(cfg, before, i) {
      assert Filled(cfg, files, i);
    }
  }

  /** The active file after a store: one line longer, or a new one of a single line. */
  lemma LongerStaysPacked(cfg: Config, before: seq<seq<AuditEntry>>, active: seq<AuditEntry>, entry: AuditEntry)
    requires Packed(cfg, before + [active])
    ensures Packed(cfg, before + [active + [entry]])
  {
    hide Bytes;
    var files, longer := before + [active], before + [active + [entry]];
    forall i: nat | i + 1 < |longer| ensures Filled(cfg, longer, i) {
      assert Filled(cfg, files, i);
    }
  }

  lemma NewFileIsPacked(cfg: Config, files: seq<seq<AuditEntry>>, entry: AuditEntry)
    requires Packed(cfg, files)
    requires files != [] ==> Bytes(cfg, files[|files| - 1]) + cfg.lineSize(entry) > cfg.maxFileSize
    ensures Packed(cfg, files + [[entry]])
  {
    hide Bytes;
    var more := files + [[entry]];
    forall i: nat | i + 1 < |more| ensures Filled(cfg, more, i) {
      if i + 1 < |files| { assert Filled(cfg, files, i); }
    }
  }

  lemma StorePacks(cfg: Config, r: Run, e: Event)
    requires Sound(cfg, r) && Enabled(cfg, r, e) && e.Store? && Packed(cfg, AllFiles(r.files))
    ensures Packed(cfg, AllFiles(Next(cfg, r, e).files))
  {
    hide AllFiles, Less, InOrder, Bytes, Packed, StoreStep, IsSuffix, Contents, TimeOrdered, Fits;
    StepPacks(cfg, r.files, e.entry, e.stamp);
  }

  lemma StepPacks(cfg: Config, st: Files, entry: AuditEntry, stamp: Stamp)
    requires st.size == Bytes(cfg, st.active) && Packed(cfg, AllFiles(st))
    requires Rotates(cfg, st, entry) ==> InOrder(cfg, st.backups, stamp)
    ensures Packed(cfg, AllFiles(StoreStep(cfg, st, entry, stamp)))
  {
    hide AllFiles, Less, InOrder, Bytes, Packed, RotateStep;
    if Rotates(cfg, st, entry) {
      RotationPacks(cfg, st, entry, stamp);
    } else {
      AppendPacks(cfg, st, entry);
    }
  }

  lemma AppendPacks(cfg: Config, st: Files, entry: AuditEntry)
    requires Packed(cfg, AllFiles(st))
    ensures Packed(cfg, AllFiles(Files(st.backups, st.active + [entry], st.size + cfg.lineSize(entry))))
  {
    hide AllFiles, Bytes, Packed;
    var before := AllFiles(st)[..|AllFiles(st)| - 1];
    assert AllFiles(st) == before + [st.active];
    LongerStaysPacked(cfg, before, st.active, entry);
    LongerActive(st, entry, cfg.lineSize(entry));
  }

  lemma RotationPacks(cfg: Config, st: Files, entry: AuditEntry, stamp: Stamp)
    requires Packed(cfg, AllFiles(st)) && InOrder(cfg, st.backups, stamp)
    requires Bytes(cfg, st.active) + cfg.lineSize(entry) > cfg.maxFileSize
    ensures var st' := RotateStep(cfg, st, stamp);
      Packed(cfg, AllFiles(Files(st'.backups, st'.active + [entry], st'.size + cfg.lineSize(entry))))
  {
    hide AllFiles, Less, InOrder, Bytes, Packed, RotateStep;
    var files, st' := AllFiles(st), RotateStep(cfg, st, stamp);
    var k := RotationFiles(cfg, st, stamp);
    RotationEmpties(cfg, st, stamp);
    PackedRest(cfg, files, k);
    NewFileIsPacked(cfg, files[k..], entry);
    FirstLine(st', files[k..], entry, cfg.lineSize(entry));
  }

  lemma FirstLine(st: Files, before: seq<seq<AuditEntry>>, entry: AuditEntry, n: int)
    requires st.active == [] && AllFiles(st) == before + [[]]
    ensures AllFiles(Files(st.backups, st.active + [entry], st.size + n)) == before + [[entry]]
  {
    hide AllFiles;
    LongerActive(st, entry, n);
    assert (before + [[]])[..|before|] == before && [] + [entry] == [entry];
  }

  lemma LongerActive(st: Files, entry: AuditEntry, n: int)
    ensures var files := AllFiles(st);
      AllFiles(Files(st.backups, st.active + [entry], st.size + n)) ==
        files[..|files| - 1] + [st.active + [entry]]
  {
    hide Listing, FilesOf;
  }

  lemma CleanupPacks(cfg: Config, r: Run, cutoff: Time)
    requires Sound(cfg, r) && Packed(cfg, AllFiles(r.files))
    ensures Packed(cfg, AllFiles(CleanupStep(r.files, cutoff)))
  {
    hide AllFiles, Packed, Sound, CleanupStep;
    var k := CleanupFiles(cfg, r, cutoff);
    PackedRest(cfg, AllFiles(r.files), k);
  }

  lemma {:induction false} RunPacks(cfg: Config, r: Run, events: seq<Event>)
    requires Sound(cfg, r) && Legal(cfg, r, events) && Packed(cfg, AllFiles(r.files))
    ensures Packed(cfg, AllFiles(After(cfg, r, events).files))
    decreases |events|
  {
    hide Sound, Enabled, Packed, AllFiles, StoreStep, CleanupStep;
    if |events| > 0 {
      if events[0].Store? {
        StorePacks(cfg, r, events[0]);
        StoreKeeps(cfg, r, events[0]);
      } else {
        CleanupPacks(cfg, r, events[0].cutoff);
        CleanupKeeps(cfg, r, events[0]);
      }
      hide Next;
      RunPacks(cfg, Next(cfg, r, events[0]), events[1..]);
    }
  }

  /**
   In every run a file was closed only because the next line did not fit: each
   backup, with the first line of the file after it, exceeds the size limit.
   */
  lemma BackupsAreFull(cfg: Config, events: seq<Event>, i: nat)
    requires Legal(cfg, Start, events) && i < |Listing(After(cfg, Start, events).files.backups.Keys)|
    ensures var st := After(cfg, Start, events).files; var order := Listing(st.backups.Keys);
      && (forall t :: t in order <==> t in st.backups)
      && var next := if i + 1 < |order| then st.backups[order[i + 1]] else st.active;
         next != [] && Bytes(cfg, st.backups[order[i]]) + cfg.lineSize(next[0]) > cfg.maxFileSize
  {
    hide Legal, After, Listing, IsListing, Bytes, Sound;
    StartIsSound(cfg);
    StartIsPacked(cfg);
    RunPacks(cfg, Start, events);
    var st := After(cfg, Start, events).files;
    ListingCovers(st.backups.Keys);
    assert Filled(cfg, AllFiles(st), i);
  }

  lemma StartIsPacked(cfg: Config)
    ensures Packed(cfg, AllFiles(Start.files))
  {
    hide IsListing;
    var none: Backups := map[];
    assert Listing(none.Keys) == [];
  }

  // ----- Runs that lose nothing -----

  lemma {:induction false} HistoryGrows(cfg: Config, r: Run, events: seq<Event>)
    ensures r.history <= After(cfg, r, events).history
    decreases |events|
  {
    hide StoreStep, CleanupStep;
    if |events| > 0 {
      HistoryGrows(cfg, Next(cfg, r, events[0]), events[1..]);
    }
  }

  lemma {:induction false} BytesOfPrefix(cfg: Config, a: seq<AuditEntry>, b: seq<AuditEntry>)
    requires a <= b
    ensures Bytes(cfg, a) <= Bytes(cfg, b)
    decreases |b|
  {
    if |a| < |b| {
      BytesOfPrefix(cfg, a, b[..|b| - 1]);
    } else {
      assert a == b;
    }
  }

  lemma {:induction false} SmallRunKeeps(cfg: Config, r: Run, events: seq<Event>)
    requires r.files == Files(map[], r.history, Bytes(cfg, r.history))
    requires Bytes(cfg, After(cfg, r, events).history) <= cfg.maxFileSize
    ensures After(cfg, r, events).files.backups == map[] &&
      After(cfg, r, events).files.active == After(cfg, r, events).history
    decreases |events|
  {
    hide RotateStep, Bytes;
    if |events| > 0 {
      var r' := Next(cfg, r, events[0]);
      HistoryGrows(cfg, r', events[1..]);
      BytesOfPrefix(cfg, r'.history, After(cfg, r', events[1..]).history);
      if events[0].Store? {
        ActiveHoldsBytes(cfg, r.history, events[0].entry);
      } else {
        assert r'.files.backups == map[];
      }
      SmallRunKeeps(cfg, r', events[1..]);
    }
  }

  /** A log that one file can hold is kept whole, in the active file, whatever the stamps and cutoffs are. */
  lemma SmallLogIsKept(cfg: Config, events: seq<Event>)
    requires Bytes(cfg, After(cfg, Start, events).history) <= cfg.maxFileSize
    ensures var r := After(cfg, Start, events); Contents(r.files) == r.history && r.files.backups == map[]
  {
    hide After;
    SmallRunKeeps(cfg, Start, events);
    NoBackups(After(cfg, Start, events).files.backups);
  }

  /** Stores alone, in time order, under ascending stamps. */
  ghost predicate Ascending(events: seq<Event>) {
    && (forall i :: 0 <= i < |events| ==> events[i].Store? && events[i].entry.timestamp > 0)
    && (forall i, j :: 0 <= i < j < |events| ==>
          events[i].entry.timestamp <= events[j].entry.timestamp && Less(events[i].stamp, events[j].stamp))
  }

  /** Everything is kept, or the backups are as many as allowed. */
  ghost predicate FullOrWhole(cfg: Config, r: Run) {
    |r.files.backups| == cfg.maxBackups || Contents(r.files) == r.history
  }

  /** Whatever is to come sorts after what is there. */
  ghost predicate Before(r: Run, events: seq<Event>) {
    && (forall t, i :: t in r.files.backups && 0 <= i < |events| && events[i].Store? ==> Less(t, events[i].stamp))
    && (forall h, i :: h in r.history && 0 <= i < |events| && events[i].Store? ==>
          h.timestamp <= events[i].entry.timestamp)
  }

  lemma AscendingStep(cfg: Config, r: Run, e: Event)
    requires Sound(cfg, r) && FullOrWhole(cfg, r) && e.Store? && forall t :: t in r.files.backups ==> Less(t, e.stamp)
    ensures FullOrWhole(cfg, Next(cfg, r, e))
    ensures forall t :: t in Next(cfg, r, e).files.backups ==> t in r.files.backups || t == e.stamp
  {
    hide Less, Log, Pruned, Bytes, IsSuffix, TimeOrdered, Fits;
    var st := r.files;
    if Rotates(cfg, st, e.entry) {
      var backups' := st.backups[e.stamp := st.active];
      PruningKeepsSome(backups', cfg.maxBackups);
      if |backups'| <= cfg.maxBackups {
        LessIsIrreflexive(e.stamp);
        assert backups'.Keys == st.backups.Keys + {e.stamp} && |backups'| == |backups'.Keys|;
        assert |st.backups| == |st.backups.Keys|;
        AppendedLog(st, e.stamp);
        PruningKeepsAll(backups', cfg.maxBackups);
      }
      ContentsGrows(RotateStep(cfg, st, e.stamp), e.entry, cfg.lineSize(e.entry));
    } else {
      ContentsGrows(st, e.entry, cfg.lineSize(e.entry));
    }
  }

  lemma PruningKeepsAll(backups: Backups, maxBackups: nat)
    requires |backups| <= maxBackups
    ensures Pruned(backups, maxBackups) == backups
  {
    hide Listing;
    ListingSizes(backups);
  }

  lemma {:induction false} AscendingRun(cfg: Config, r: Run, events: seq<Event>)
    requires Sound(cfg, r) && FullOrWhole(cfg, r) && Ascending(events) && Before(r, events)
    ensures Legal(cfg, r, events) && FullOrWhole(cfg, After(cfg, r, events))
    decreases |events|
  {
    hide Sound, FullOrWhole, Less, Rotates, StoreStep;
    if |events| > 0 {
      assert Enabled(cfg, r, events[0]);
      AscendingStep(cfg, r, events[0]);
      StoreKeeps(cfg, r, events[0]);
      assert Before(Next(cfg, r, events[0]), events[1..]);
      AscendingRun(cfg, Next(cfg, r, events[0]), events[1..]);
    }
  }

  ghost function TotalBytes(cfg: Config, files: seq<seq<AuditEntry>>): nat {
    if files == [] then 0 else TotalBytes(cfg, files[..|files| - 1]) + Bytes(cfg, files[|files| - 1])
  }

  lemma {:induction false} BytesAppend(cfg: Config, a: seq<AuditEntry>, b: seq<AuditEntry>)
    ensures Bytes(cfg, a + b) == Bytes(cfg, a) + Bytes(cfg, b)
  {
    if b == [] {
      assert a + b == a;
    } else {
      BytesAppend(cfg, a, b[..|b| - 1]);
      assert (a + b)[..|a + b| - 1] == a + b[..|b| - 1];
    }
  }

  lemma {:induction false} JoinedBytes(cfg: Config, backups: Backups, order: seq<Stamp>)
    requires forall t :: t in order ==> t in backups
    ensures Bytes(cfg, Joined(backups, order)) == TotalBytes(cfg, FilesOf(backups, order))
  {
    hide Bytes;
    if order == [] {
      BytesOfNothing(cfg);
    } else {
      var before, last := order[..|order| - 1], order[|order| - 1];
      assert last in order;
      JoinedBytes(cfg, backups, before);
      BytesAppend(cfg, Joined(backups, before), backups[last]);
      var files := FilesOf(backups, order);
      assert files[..|files| - 1] == FilesOf(backups, before);
    }
  }

  lemma BytesOfNothing(cfg: Config)
    ensures Bytes(cfg, []) == 0
  {
  }

  /** Of any two neighbours in a packed directory the lines exceed one file. */
  lemma {:induction false} PackedHolds(cfg: Config, files: seq<seq<AuditEntry>>)
    requires Packed(cfg, files) && files != []
    ensures 2 * TotalBytes(cfg, files) >=
      (|files| - 1) * (cfg.maxFileSize + 1) + Bytes(cfg, files[|files| - 1])
  {
    hide Bytes;
    var n := |files|;
    if n == 1 {
      assert files[..0] == [];
    } else {
      var before := files[..n - 1];
      PackedBefore(cfg, files);
      PackedHolds(cfg, before);
      assert Filled(cfg, files, n - 2);
      FirstLineFits(cfg, files[n - 1]);
      assert (n - 1) * (cfg.maxFileSize + 1) == (n - 2) * (cfg.maxFileSize + 1) + (cfg.maxFileSize + 1);
    }
  }

  lemma FirstLineFits(cfg: Config, file: seq<AuditEntry>)
    requires file != []
    ensures Bytes(cfg, file) >= cfg.lineSize(file[0])
  {
    BytesOfPrefix(cfg, file[..1], file);
    assert file[..1] == [] + [file[0]];
    ActiveHoldsBytes(cfg, [], file[0]);
  }

  lemma ContentsBytes(cfg: Config, st: Files)
    ensures Bytes(cfg, Contents(st)) == TotalBytes(cfg, AllFiles(st))
  {
    hide Listing, IsListing, FilesOf, Joined, Bytes;
    var order, files := Listing(st.backups.Keys), AllFiles(st);
    LogIsJoined(st.backups);
    JoinedBytes(cfg, st.backups, order);
    BytesAppend(cfg, Log(st.backups), st.active);
    assert files[..|files| - 1] == FilesOf(st.backups, order);
  }

  lemma SuffixIsSmaller(cfg: Config, s: seq<AuditEntry>, log: seq<AuditEntry>)
    requires IsSuffix(s, log)
    ensures Bytes(cfg, s) <= Bytes(cfg, log)
  {
    hide Bytes;
    var front := log[..|log| - |s|];
    assert log == front + s;
    BytesAppend(cfg, front, s);
  }

  lemma StartIsWhole(cfg: Config)
    ensures FullOrWhole(cfg, Start)
  {
    NoBackups(Start.files.backups);
  }

  lemma AscendingFromStart(cfg: Config, events: seq<Event>)
    requires Ascending(events)
    ensures var r := After(cfg, Start, events);
      Sound(cfg, r) && FullOrWhole(cfg, r) && Packed(cfg, AllFiles(r.files))
  {
    hide Less, Legal, After, Packed, Contents, AllFiles, Sound;
    StartIsSound(cfg);
    StartIsPacked(cfg);
    StartIsWhole(cfg);
    AscendingRun(cfg, Start, events);
    RunPacks(cfg, Start, events);
    FileLogIsSuffix(cfg, Start, events);
  }

  lemma FullHolds(cfg: Config, st: Files)
    requires Packed(cfg, AllFiles(st))
    ensures 2 * Bytes(cfg, Contents(st)) >= |st.backups| * (cfg.maxFileSize + 1)
  {
    hide Contents, Bytes, AllFiles, Packed;
    ContentsBytes(cfg, st);
    PackedHolds(cfg, AllFiles(st));
    ListingSizes(st.backups);
  }

  lemma Distributes(m: nat, n: int)
    ensures m * (n + 1) == m * n + m
  {
  }

  /**
   Stores under ascending stamps lose an entry only when the backups are as many as
   allowed, and what is then kept exceeds half of what that many files may hold. A
   history of at most half that size is kept whole.
   */
  lemma LosesOnlyWhenFull(cfg: Config, events: seq<Event>)
    requires Ascending(events)
    ensures var r := After(cfg, Start, events);
      Contents(r.files) != r.history ==>
        && |r.files.backups| == cfg.maxBackups
        && 2 * Bytes(cfg, Contents(r.files)) >= cfg.maxBackups * (cfg.maxFileSize + 1)
    ensures var r := After(cfg, Start, events);
      cfg.maxBackups > 0 && 2 * Bytes(cfg, r.history) <= cfg.maxBackups * cfg.maxFileSize ==>
        Contents(r.files) == r.history
  {
    hide Less, Legal, After, Packed, Contents, IsSuffix, Bytes, AllFiles, Sound;
    var r := After(cfg, Start, events);
    AscendingFromStart(cfg, events);
    SoundParts(cfg, r);
    if Contents(r.files) != r.history {
      FullHolds(cfg, r.files);
      SuffixIsSmaller(cfg, Contents(r.files), r.history);
      Distributes(cfg.maxBackups, cfg.maxFileSize);
    }
  }
}
