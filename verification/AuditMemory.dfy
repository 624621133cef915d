/** The in-memory backend: a bounded slice over an array that is grown, re-sliced and filtered in place. */
module AuditMemory {
  import opened Wrappers
  import opened Seqs
  import opened AuditEntries

  /** The entries that a cleanup keeps: those after the cutoff. */
  function After(entries: seq<AuditEntry>, cutoff: Time): seq<AuditEntry> {
    if entries == [] then []
    else
      var last := entries[|entries| - 1];
      After(entries[..|entries| - 1], cutoff) + (if last.timestamp > cutoff then [last] else [])
  }

  lemma NoneAfter(cutoff: Time)
    ensures After([], cutoff) == []
  {
  }

  lemma OneMoreAfter(entries: seq<AuditEntry>, i: nat, cutoff: Time)
    requires i < |entries|
    ensures After(entries[..i + 1], cutoff) ==
      After(entries[..i], cutoff) + (if entries[i].timestamp > cutoff then [entries[i]] else [])
  {
    assert entries[..i + 1][..i] == entries[..i];
  }

  class MemoryBackend {
    const maxEntries: nat
    var data: array<AuditEntry>  // the backing array of the slice
    var start: nat
    var len: nat

    constructor (maxEntries: int)
      ensures Valid() && Entries() == [] && fresh(data)
      ensures this.maxEntries == if maxEntries <= 0 then 1 else maxEntries
    {
      this.maxEntries := if maxEntries <= 0 then 1 else maxEntries;
      data := new AuditEntry[0];
      start, len := 0, 0;
    }

    ghost predicate Valid()
      reads this
    {
      start + len <= data.Length && len <= maxEntries && maxEntries > 0
    }

    function Entries(): seq<AuditEntry>
      requires start + len <= data.Length
      reads this, data
    {
      data[start..start + len]
    }

    /** append(b.entries, entry): in the spare capacity if there is any, else in a larger array. */
    method Append(entry: AuditEntry)
      requires start + len <= data.Length
      modifies this, data
      ensures start + len <= data.Length && Entries() == old(Entries()) + [entry]
      ensures data == old(data) || fresh(data)
    {
      if start + len == data.Length {
        var grown := new AuditEntry[2 * len + 1];
        for i := 0 to len
          invariant forall j :: 0 <= j < i ==> grown[j] == old(Entries())[j]
          invariant unchanged(this) && unchanged(data)
        {
          grown[i] := data[start + i];
        }
        data, start := grown, 0;
        assert Entries() == old(Entries());
      }
      data[start + len] := entry;
      len := len + 1;
    }

    method Store(entry: AuditEntry)
      requires Valid()
      modifies this, data
      ensures Valid() && Entries() == LastN(old(Entries()) + [entry], maxEntries)
      ensures data == old(data) || fresh(data)
    {
      Append(entry);
      if len > maxEntries {
        start, len := start + (len - maxEntries), maxEntries;
      }
    }

    method Query(limit: int, offset: int, filter: Option<AuditFilter>) returns (r: (seq<AuditEntry>, int))
      requires Valid()
      ensures r == QueryLog(Entries(), limit, offset, filter)
    {
      var filtered := ScanNewestFirst(Entries(), filter);
      r := Paginate(filtered, limit, offset);
    }

    /** kept := b.entries[:0], filled while the same backing array is read. */
    method Cleanup(cutoff: Time)
      requires Valid()
      modifies this, data
      ensures Valid() && data == old(data) && Entries() == After(old(Entries()), cutoff)
    {
      hide After;
      var cells, first, kept := data, start, 0;
      ghost var was, left := Entries(), [];
      NoneAfter(cutoff);
      for i := 0 to len
        modifies cells
        invariant left == After(was[..i], cutoff) && |left| == kept <= i
        invariant forall j :: 0 <= j < kept ==> cells[first + j] == left[j]
        invariant forall j :: i <= j < len ==> cells[first + j] == was[j]
      {
        OneMoreAfter(was, i, cutoff);
        if cells[first + i].timestamp > cutoff {
          cells[first + kept] := cells[first + i];
          kept := kept + 1;
          left := left + [was[i]];
        }
      }
      assert was[..len] == was;
      len := kept;
    }
  }

  // ----- Runs -----

  function StoreAll(entries: seq<AuditEntry>, stored: seq<AuditEntry>, maxEntries: nat): seq<AuditEntry> {
    if stored == [] then entries
    else LastN(StoreAll(entries, stored[..|stored| - 1], maxEntries) + [stored[|stored| - 1]], maxEntries)
  }

  /** After any run of stores the backend holds exactly the newest entries, in order. */
  lemma {:induction false} HoldsTheNewest(entries: seq<AuditEntry>, stored: seq<AuditEntry>, maxEntries: nat)
    requires |entries| <= maxEntries
    ensures StoreAll(entries, stored, maxEntries) == LastN(entries + stored, maxEntries)
  {
    if stored == [] {
      assert entries + stored == entries;
    } else {
      var before, last := stored[..|stored| - 1], stored[|stored| - 1];
      HoldsTheNewest(entries, before, maxEntries);
      LastNOfTrimmedPrefix(entries + before, [last], maxEntries);
      assert entries + before + [last] == entries + stored;
    }
  }

  /** A cleanup removes what is at or before the cutoff and nothing else. */
  lemma {:induction false} CleanupKeepsTheNewer(entries: seq<AuditEntry>, cutoff: Time)
    ensures forall e :: e in After(entries, cutoff) <==> e in entries && e.timestamp > cutoff
    ensures After(entries, cutoff) == [] <==> forall e :: e in entries ==> e.timestamp <= cutoff
  {
    if entries != [] {
      CleanupKeepsTheNewer(entries[..|entries| - 1], cutoff);
      assert entries == entries[..|entries| - 1] + [entries[|entries| - 1]];
    }
  }

  /** When entries were stored in time order, what is left is the end of the log. */
  lemma {:induction false} CleanupLeavesTheEnd(entries: seq<AuditEntry>, cutoff: Time)
    requires forall i, j :: 0 <= i < j < |entries| ==> entries[i].timestamp <= entries[j].timestamp
    ensures |After(entries, cutoff)| <= |entries|
    ensures After(entries, cutoff) == entries[|entries| - |After(entries, cutoff)|..]
  {
    if entries != [] {
      var before, last := entries[..|entries| - 1], entries[|entries| - 1];
      CleanupLeavesTheEnd(before, cutoff);
      OneMoreAfter(entries, |entries| - 1, cutoff);
      assert entries == before + [last] && entries[..|entries|] == entries;
      hide After;
      if last.timestamp <= cutoff {
        forall e | e in before ensures e.timestamp <= cutoff {
          assert exists i :: 0 <= i < |entries| - 1 && entries[i] == e;
        }
        CleanupKeepsTheNewer(before, cutoff);
      }
    }
  }
}
