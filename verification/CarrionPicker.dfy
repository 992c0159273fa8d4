/** The garbage-collection sweep over the store and the evaluation cache. */
module Sweeping {
  import opened Wrappers
  import opened Mailbox
  import opened Storage

  datatype CacheEntry = CacheEntry(deduction: Option<nat>, created: int, value: string)

  /** Entries that no deduction of the set is charged with. */
  function NotOf(entries: map<string, CacheEntry>, deductions: set<nat>): map<string, CacheEntry> {
    map key | key in entries && !(entries[key].deduction.Some? && entries[key].deduction.value in deductions) ::
        entries[key]
  }

  function Since(entries: map<string, CacheEntry>, cutoff: int): map<string, CacheEntry> {
    map key | key in entries && entries[key].created >= cutoff :: entries[key]
  }

  lemma FewerEntries(a: map<string, CacheEntry>, b: map<string, CacheEntry>)
    requires a.Keys <= b.Keys
    ensures |a| <= |b|
  {
    Shrinks(b, b.Keys - a.Keys);
    assert (b - (b.Keys - a.Keys)).Keys == a.Keys;
    assert |a.Keys| == |a| && |(b - (b.Keys - a.Keys)).Keys| == |b - (b.Keys - a.Keys)|;
  }

  class EvaluateCache {
    var entries: map<string, CacheEntry>

    constructor ()
      ensures entries == map[]
    {
      entries := map[];
    }

    method EvictOlderThan(cutoff: int) returns (removed: nat)
      modifies this
      ensures entries == Since(old(entries), cutoff) && removed == |old(entries)| - |entries|
    {
      FewerEntries(Since(entries, cutoff), entries);
      removed := |entries| - |Since(entries, cutoff)|;
      entries := Since(entries, cutoff);
    }

    method EvictByDeduction(deduction: nat) returns (removed: nat)
      modifies this
      ensures entries == NotOf(old(entries), {deduction}) && removed == |old(entries)| - |entries|
    {
      FewerEntries(NotOf(entries, {deduction}), entries);
      removed := |entries| - |NotOf(entries, {deduction})|;
      entries := NotOf(entries, {deduction});
    }
  }

  lemma NotOfNone(entries: map<string, CacheEntry>)
    ensures NotOf(entries, {}) == entries && SnapshotIds([]) == {}
  {
  }

  lemma NotOfOneMore(entries: map<string, CacheEntry>, expired: seq<Snapshot>, k: nat)
    requires k < |expired|
    ensures NotOf(NotOf(entries, SnapshotIds(expired[..k])), {expired[k].id})
      == NotOf(entries, SnapshotIds(expired[..k + 1]))
  {
    var gone := expired[..k];
    assert expired[..k + 1] == gone + [expired[k]];
    assert SnapshotIds(gone + [expired[k]]) == SnapshotIds(gone) + {expired[k].id};
  }

  /** The cache after a sweep: entries charged to a reaped deduction and entries that are
      too old are gone. */
  function CacheAfter(entries: map<string, CacheEntry>, snapshots: seq<Snapshot>, now: int, active: set<nat>,
                      cutoff: int)
    : map<string, CacheEntry>
  {
    Since(NotOf(entries, SnapshotIds(Expired(snapshots, now, active))), cutoff)
  }

  class CarrionPicker {
    const store: CoireStore
    const coireTtl: int
    const cacheTtl: int
    const cache: EvaluateCache
    /** Without an eviction handler the cache is left alone. */
    const evicts: bool

    constructor (store: CoireStore, coireTtl: int, cacheTtl: int, cache: EvaluateCache, evicts: bool)
      ensures this.store == store && this.coireTtl == coireTtl && this.cacheTtl == cacheTtl
      ensures this.cache == cache && this.evicts == evicts
    {
      this.store, this.coireTtl, this.cacheTtl, this.cache, this.evicts := store, coireTtl, cacheTtl, cache, evicts;
    }

    /** Pass 1: expired snapshots go, with the events of their sessions and the cache
        entries of their deductions. */
    method ReapSnapshots(now: int, active: set<nat>) returns (deleted: nat, evicted: nat)
      requires store.Valid()
      modifies store`rows, store`snapshots, cache
      ensures store.Valid() && deleted == |Expired(old(store.snapshots), now, active)|
      ensures store.rows == WithoutAll(old(store.rows), ReapedSessions(old(store.snapshots), now, active))
      ensures store.snapshots
        == DroppedAll(old(store.snapshots), SnapshotIds(Expired(old(store.snapshots), now, active)))
      ensures cache.entries == if evicts
        then NotOf(old(cache.entries), SnapshotIds(Expired(old(store.snapshots), now, active)))
                               else old(cache.entries)
      ensures evicted == |old(cache.entries)| - |cache.entries|
    {
      hide Distinct, DistinctSnapshots, Without, Dropped, WithoutAll, DroppedAll, SessionsOf, SnapshotIds,
          Expired, NotOf;
      ghost var rows0, snapshots0, cached0 := store.rows, store.snapshots, cache.entries;
      var expired := Expired(store.snapshots, now, active);
      ExpiredMembers(store.snapshots, now, active);
      DroppingNone(store.rows, store.snapshots);
      NotOfNone(cache.entries);
      evicted := 0;
      for k := 0 to |expired|
        invariant store.Valid() && store.rows == WithoutAll(rows0, SessionsOf(expired[..k]))
        invariant store.snapshots == DroppedAll(snapshots0, SnapshotIds(expired[..k]))
        invariant cache.entries == if evicts then NotOf(cached0, SnapshotIds(expired[..k])) else cached0
        invariant evicted == |cached0| - |cache.entries|
      {
        DroppingOneMore(rows0, snapshots0, expired, k);
        NotOfOneMore(cached0, expired, k);
        var removed := store.DeleteSnapshot(expired[k].id);
        if evicts {
          var n := cache.EvictByDeduction(expired[k].id);
          evicted := evicted + n;
        }
      }
      assert expired[..|expired|] == expired;
      deleted := |expired|;
    }

    /** Passes 1 and 2 together. */
    method SweepSessions(now: int, active: set<nat>) returns (snapshotsDeleted: nat, eventsDeleted: nat, evicted: nat)
      requires store.Valid()
      modifies store`rows, store`snapshots, cache
      ensures store.Valid()
      ensures store.rows
        == WithoutAll(old(store.rows), DeadSessions(old(store.rows), old(store.snapshots), active, now, now - coireTtl))
      ensures store.snapshots == Keeping(old(store.snapshots), now, active)
      ensures snapshotsDeleted == |old(store.snapshots)| - |store.snapshots|
      ensures eventsDeleted == |WithoutAll(old(store.rows), ReapedSessions(old(store.snapshots), now, active))|
        - |store.rows|
      ensures cache.entries == if evicts
        then NotOf(old(cache.entries), SnapshotIds(Expired(old(store.snapshots), now, active)))
                               else old(cache.entries)
      ensures evicted == |old(cache.entries)| - |cache.entries|
    {
      assert DistinctSnapshots(store.snapshots);
      hide *;
      PassesLeaveSurvivors(store.rows, store.snapshots, active, now, now - coireTtl);
      KeepingIsDropping(store.snapshots, now, active);
      snapshotsDeleted, evicted := ReapSnapshots(now, active);
      eventsDeleted := store.SweepStale(now - coireTtl, active);
    }

    /** One sweep: expired snapshots, stale sessions, old cache entries, expired sources. */
    method Sweep(now: int, active: set<nat>) returns (snapshotsDeleted: nat, eventsDeleted: nat, evicted: nat)
      requires store.Valid()
      modifies store`rows, store`snapshots, store.sources, cache
      ensures store.Valid()
      ensures store.rows
        == WithoutAll(old(store.rows), DeadSessions(old(store.rows), old(store.snapshots), active, now, now - coireTtl))
      ensures store.snapshots == Keeping(old(store.snapshots), now, active)
      ensures snapshotsDeleted == |old(store.snapshots)| - |store.snapshots|
      ensures eventsDeleted == |WithoutAll(old(store.rows), ReapedSessions(old(store.snapshots), now, active))|
        - |store.rows|
      ensures cache.entries == if evicts
        then CacheAfter(old(cache.entries), old(store.snapshots), now, active, now - cacheTtl)
                               else old(cache.entries)
      ensures evicted == |old(cache.entries)| - |cache.entries|
      ensures store.sources.sources == KeptSources(old(store.sources.sources), now)
      ensures store.sources.artifacts == KeptArtifacts(old(store.sources.artifacts), old(store.sources.sources), now)
    {
      hide *;
      CacheAfterIs(cache.entries, store.snapshots, now, active, now - cacheTtl);
      snapshotsDeleted, eventsDeleted, evicted := SweepSessions(now, active);
      if evicts {
        var n := cache.EvictOlderThan(now - cacheTtl);
        evicted := evicted + n;
      }
      var swept := store.sources.SweepExpired(now);
    }
  }

  lemma CacheAfterIs(entries: map<string, CacheEntry>, snapshots: seq<Snapshot>, now: int, active: set<nat>,
                     cutoff: int)
    ensures CacheAfter(entries, snapshots, now, active, cutoff)
      == Since(NotOf(entries, SnapshotIds(Expired(snapshots, now, active))), cutoff)
  {
  }

  /** After a sweep an entry is cached exactly if it was before, is not too old, and is
      charged to no deduction whose snapshot was reaped. */
  lemma SweptCache(entries: map<string, CacheEntry>, snapshots: seq<Snapshot>, now: int, active: set<nat>, cutoff: int,
                   key: string)
    ensures key in CacheAfter(entries, snapshots, now, active, cutoff) <==>
      && key in entries && entries[key].created >= cutoff
      && !exists k | 0 <= k < |snapshots| ::
        Reaped(snapshots[k], now, active) && entries[key].deduction == Some(snapshots[k].id)
  {
    hide Reaped, Expired;
    ExpiredMembers(snapshots, now, active);
    var gone := Expired(snapshots, now, active);
    if key in entries && entries[key].deduction.Some? {
      var id := entries[key].deduction.value;
      assert id in SnapshotIds(gone)
        <==> exists k | 0 <= k < |snapshots| :: Reaped(snapshots[k], now, active) && snapshots[k].id == id by {
        forall k | 0 <= k < |snapshots| && Reaped(snapshots[k], now, active)
          ensures snapshots[k].id in SnapshotIds(gone) {
          assert snapshots[k] in gone;
        }
      }
    }
  }
}
