/** The store: saved mailboxes, snapshots and sources, and which of them survive a sweep. */
module Storage {
  import opened Wrappers
  import opened Mailbox
  import opened Relay

  // Saving and restoring

  function InSession(rows: seq<Event>, session: nat): seq<Event> {
    if rows == [] then [] else (if rows[0].session == session then [rows[0]] else []) + InSession(rows[1..], session)
  }

  /** Inserts a row, or overwrites the one with the same identifier, whatever session
      that belongs to. */
  function Upsert(rows: seq<Event>, e: Event): seq<Event> {
    if e.id in Ids(rows) then seq(|rows|, k requires 0 <= k < |rows| => if rows[k].id == e.id then e else rows[k])
      else rows + [e]
  }

  function UpsertAll(rows: seq<Event>, es: seq<Event>): seq<Event> {
    if es == [] then rows else Upsert(UpsertAll(rows, es[..|es| - 1]), es[|es| - 1])
  }

  function Waiting(rows: seq<Event>, session: nat): seq<Event> { ByTime(Selected(rows, session, AnyOrigin)) }

  /** The table after a session's pending events have been saved. */
  function Saved(store: seq<Event>, mailbox: seq<Event>, session: nat): seq<Event> {
    UpsertAll(store, Waiting(mailbox, session))
  }

  /** The store after both mailboxes of a deduction were saved. */
  function SavedBoth(store: seq<Event>, mailbox: seq<Event>, s: Engines): seq<Event> {
    Saved(Saved(store, mailbox, s.prolog), mailbox, s.clips)
  }

  function Moved(es: seq<Event>, into: nat): seq<Event> {
    seq(|es|, k requires 0 <= k < |es| => es[k].(session := into))
  }

  /** What a restore reads. */
  function Stored(store: seq<Event>, session: nat): seq<Event> { ByTime(InSession(store, session)) }

  /** Writes events in order, up to the first whose identifier is taken. */
  function WriteAll(rows: seq<Event>, es: seq<Event>): seq<Event>
    decreases es
  {
    if es == [] || es[0].id in Ids(rows) then rows else WriteAll(rows + [es[0]], es[1..])
  }

  /** No write of `WriteAll` fails. */
  predicate AllWritten(rows: seq<Event>, es: seq<Event>)
    decreases es
  {
    es == [] || (es[0].id !in Ids(rows) && AllWritten(rows + [es[0]], es[1..]))
  }

  /** What restoring a saved session under another one writes. */
  function Restoring(store: seq<Event>, from: nat, into: nat): seq<Event> { Moved(Stored(store, from), into) }

  datatype Snapshot = Snapshot(id: nat, prolog: nat, clips: nat, expires: int)

  datatype Source = Source(expires: Option<int>, content: string)

  datatype Artifact = Artifact(source: nat, expires: Option<int>, content: string)

  predicate Overdue(expires: Option<int>, now: int) { expires.Some? && expires.value <= now }

  function KeptSources(sources: map<nat, Source>, now: int): map<nat, Source> {
    map id | id in sources && !Overdue(sources[id].expires, now) :: sources[id]
  }

  function KeptArtifacts(artifacts: map<nat, Artifact>, sources: map<nat, Source>, now: int): map<nat, Artifact> {
    map id | id in artifacts && artifacts[id].source in KeptSources(sources, now)
        && !Overdue(artifacts[id].expires, now) :: artifacts[id]
  }

  function OfExpired(artifacts: map<nat, Artifact>, sources: map<nat, Source>, now: int): (ids: set<nat>)
    ensures ids <= artifacts.Keys
  {
    set id | id in artifacts && artifacts[id].source in sources && Overdue(sources[artifacts[id].source].expires, now)
  }

  function ExpiredSources(sources: map<nat, Source>, now: int): (ids: set<nat>)
    ensures ids <= sources.Keys
  {
    set id | id in sources && Overdue(sources[id].expires, now)
  }

  function Orphans(artifacts: map<nat, Artifact>, sources: map<nat, Source>): (ids: set<nat>)
    ensures ids <= artifacts.Keys
  {
    set id | id in artifacts && artifacts[id].source !in sources
  }

  function ExpiredArtifacts(artifacts: map<nat, Artifact>, now: int): (ids: set<nat>)
    ensures ids <= artifacts.Keys
  {
    set id | id in artifacts && Overdue(artifacts[id].expires, now)
  }

  class SourceRegistry {
    var sources: map<nat, Source>
    var artifacts: map<nat, Artifact>

    constructor ()
      ensures sources == map[] && artifacts == map[]
    {
      sources, artifacts := map[], map[];
    }

    /** Four deletions in turn. What stays is exactly the unexpired sources, and the
        unexpired artifacts of those; the count is the number of rows removed. */
    method SweepExpired(now: int) returns (removed: nat)
      modifies this
      ensures sources == KeptSources(old(sources), now)
      ensures artifacts == KeptArtifacts(old(artifacts), old(sources), now)
      ensures removed == |old(sources)| - |sources| + |old(artifacts)| - |artifacts|
    {
      hide *;
      FourDeletions(sources, artifacts, now);
      var fromSources := DropArtifacts(OfExpired(artifacts, sources, now));
      var expired := DropSources(ExpiredSources(sources, now));
      var orphans := DropArtifacts(Orphans(artifacts, sources));
      var late := DropArtifacts(ExpiredArtifacts(artifacts, now));
      removed := fromSources + expired + orphans + late;
    }

    method DropArtifacts(ids: set<nat>) returns (removed: nat)
      requires ids <= artifacts.Keys
      modifies this`artifacts
      ensures artifacts == old(artifacts) - ids && removed == |old(artifacts)| - |artifacts|
    {
      Shrinks(artifacts, ids);
      removed := |ids|;
      artifacts := artifacts - ids;
    }

    method DropSources(ids: set<nat>) returns (removed: nat)
      requires ids <= sources.Keys
      modifies this`sources
      ensures sources == old(sources) - ids && removed == |old(sources)| - |sources|
    {
      Shrinks(sources, ids);
      removed := |ids|;
      sources := sources - ids;
    }
  }

  /** What the four deletions leave. */
  lemma FourDeletions(sources: map<nat, Source>, artifacts: map<nat, Artifact>, now: int)
    ensures var first := artifacts - OfExpired(artifacts, sources, now);
      var kept := sources - ExpiredSources(sources, now);
      var second := first - Orphans(first, kept);
      kept == KeptSources(sources, now)
          && second - ExpiredArtifacts(second, now) == KeptArtifacts(artifacts, sources, now)
  {
    var first := artifacts - OfExpired(artifacts, sources, now);
    var kept := sources - ExpiredSources(sources, now);
    assert kept == KeptSources(sources, now);
    var second := first - Orphans(first, kept);
    assert second == map id | id in artifacts && artifacts[id].source in KeptSources(sources, now) :: artifacts[id];
  }

  lemma Shrinks<K, T>(m: map<K, T>, ids: set<K>)
    requires ids <= m.Keys
    ensures |m - ids| == |m| - |ids|
  {
    assert (m - ids).Keys == m.Keys - ids;
    assert |m.Keys| == |m| && |(m - ids).Keys| == |m - ids|;
  }

  // The sweep

  function WithoutAll(rows: seq<Event>, dead: set<nat>): seq<Event> {
    if rows == [] then [] else (if rows[0].session in dead then [] else [rows[0]]) + WithoutAll(rows[1..], dead)
  }

  /** Expired, and neither of its sessions is running. */
  predicate Reaped(s: Snapshot, now: int, active: set<nat>) {
    s.expires < now && s.prolog !in active && s.clips !in active
  }

  function Keeping(snapshots: seq<Snapshot>, now: int, active: set<nat>): seq<Snapshot> {
    if snapshots == [] then []
    else (if Reaped(snapshots[0], now, active) then [] else [snapshots[0]]) + Keeping(snapshots[1..], now, active)
  }

  predicate OwnedByReaped(snapshots: seq<Snapshot>, now: int, active: set<nat>, session: nat) {
    exists k | 0 <= k < |snapshots| ::
        Reaped(snapshots[k], now, active) && session in {snapshots[k].prolog, snapshots[k].clips}
  }

  predicate HasEventSince(rows: seq<Event>, session: nat, cutoff: int) {
    exists k | 0 <= k < |rows| :: rows[k].session == session && rows[k].created >= cutoff
  }

  /** A session keeps its events if it is running, or if no reaped snapshot owns it and
      it has an event no older than the cutoff. */
  predicate Survives(rows: seq<Event>, snapshots: seq<Snapshot>, active: set<nat>, now: int, cutoff: int,
                     session: nat) {
    session in active || (!OwnedByReaped(snapshots, now, active, session) && HasEventSince(rows, session, cutoff))
  }

  function DeadSessions(rows: seq<Event>, snapshots: seq<Snapshot>, active: set<nat>, now: int, cutoff: int): set<nat> {
    set k | 0 <= k < |rows| && !Survives(rows, snapshots, active, now, cutoff, rows[k].session) :: rows[k].session
  }

  function Expired(snapshots: seq<Snapshot>, now: int, active: set<nat>): seq<Snapshot> {
    if snapshots == [] then []
    else (if Reaped(snapshots[0], now, active) then [snapshots[0]] else []) + Expired(snapshots[1..], now, active)
  }

  function SessionsOf(gone: seq<Snapshot>): set<nat> {
    (set s | s in gone :: s.prolog) + (set s | s in gone :: s.clips)
  }

  function SnapshotIds(gone: seq<Snapshot>): set<nat> { set s | s in gone :: s.id }

  /** Sessions of the snapshots that this sweep reaps. */
  function ReapedSessions(snapshots: seq<Snapshot>, now: int, active: set<nat>): set<nat> {
    SessionsOf(Expired(snapshots, now, active))
  }

  /** Sessions whose newest event is older than the cutoff. */
  function StaleSessions(rows: seq<Event>, cutoff: int, active: set<nat>): set<nat> {
    set k | 0 <= k < |rows| && !HasEventSince(rows, rows[k].session, cutoff) && rows[k].session !in active ::
        rows[k].session
  }

  lemma ReapedOwn(snapshots: seq<Snapshot>, now: int, active: set<nat>, session: nat)
    ensures session in ReapedSessions(snapshots, now, active) <==> OwnedByReaped(snapshots, now, active, session)
    ensures session in ReapedSessions(snapshots, now, active) ==> session !in active
  {
    hide Expired;
    ExpiredMembers(snapshots, now, active);
  }

  lemma {:induction false} ExpiredMembers(snapshots: seq<Snapshot>, now: int, active: set<nat>)
    ensures forall s :: s in Expired(snapshots, now, active) <==> s in snapshots && Reaped(s, now, active)
    ensures DistinctSnapshots(snapshots) ==> DistinctSnapshots(Expired(snapshots, now, active))
  {
    hide Reaped;
    if snapshots != [] {
      ExpiredMembers(snapshots[1..], now, active);
      assert snapshots == [snapshots[0]] + snapshots[1..];
      if DistinctSnapshots(snapshots) {
        var rest := Expired(snapshots[1..], now, active);
        forall k | 0 <= k < |rest| ensures rest[k].id != snapshots[0].id {
          assert rest[k] in snapshots[1..];
        }
      }
    }
  }

  lemma {:induction false} WithoutAllMembers(rows: seq<Event>, dead: set<nat>)
    ensures forall e :: e in WithoutAll(rows, dead) <==> e in rows && e.session !in dead
    ensures |WithoutAll(rows, dead)| <= |rows|
  {
    if rows != [] {
      WithoutAllMembers(rows[1..], dead);
      assert rows == [rows[0]] + rows[1..];
    }
  }

  lemma {:induction false} WithoutNone(rows: seq<Event>)
    ensures WithoutAll(rows, {}) == rows
  {
    if rows != [] {
      WithoutNone(rows[1..]);
    }
  }

  lemma {:induction false} WithoutOneMore(rows: seq<Event>, dead: set<nat>, session: nat)
    ensures Without(WithoutAll(rows, dead), session) == WithoutAll(rows, dead + {session})
  {
    if rows != [] {
      WithoutOneMore(rows[1..], dead, session);
      var rest := WithoutAll(rows[1..], dead);
      assert ([rows[0]] + rest)[1..] == rest && [] + rest == rest;
    }
  }

  lemma {:induction false} WithoutTwice(rows: seq<Event>, a: set<nat>, b: set<nat>)
    ensures WithoutAll(WithoutAll(rows, a), b) == WithoutAll(rows, a + b)
  {
    if rows != [] {
      WithoutTwice(rows[1..], a, b);
      var rest := WithoutAll(rows[1..], a);
      assert ([rows[0]] + rest)[1..] == rest && [] + rest == rest;
    }
  }

  lemma {:induction false} OnlySessionsThere(rows: seq<Event>, a: set<nat>, b: set<nat>)
    requires forall k | 0 <= k < |rows| :: rows[k].session in a <==> rows[k].session in b
    ensures WithoutAll(rows, a) == WithoutAll(rows, b)
  {
    if rows != [] {
      OnlySessionsThere(rows[1..], a, b);
    }
  }

  /** The two passes over the saved events together remove exactly the sessions that
      do not survive. */
  lemma PassesLeaveSurvivors(rows: seq<Event>, snapshots: seq<Snapshot>, active: set<nat>, now: int, cutoff: int)
    ensures var first := WithoutAll(rows, ReapedSessions(snapshots, now, active));
      WithoutAll(first, StaleSessions(first, cutoff, active))
        == WithoutAll(rows, DeadSessions(rows, snapshots, active, now, cutoff))
  {
    hide OwnedByReaped, ReapedSessions, WithoutAll;
    var owned := ReapedSessions(snapshots, now, active);
    var first := WithoutAll(rows, owned);
    WithoutTwice(rows, owned, StaleSessions(first, cutoff, active));
    forall k | 0 <= k < |rows|
      ensures rows[k].session in owned + StaleSessions(first, cutoff, active)
         <==> rows[k].session in DeadSessions(rows, snapshots, active, now, cutoff)
    {
      ReapedOwn(snapshots, now, active, rows[k].session);
      OneSession(rows, snapshots, active, now, cutoff, k);
    }
    OnlySessionsThere(rows, owned + StaleSessions(first, cutoff, active),
                      DeadSessions(rows, snapshots, active, now, cutoff));
  }

  lemma OneSession(rows: seq<Event>, snapshots: seq<Snapshot>, active: set<nat>, now: int, cutoff: int, k: nat)
    requires k < |rows|
    ensures var owned := ReapedSessions(snapshots, now, active);
      var first := WithoutAll(rows, owned);
      var session := rows[k].session;
      && (session in DeadSessions(rows, snapshots, active, now, cutoff)
        <==> !Survives(rows, snapshots, active, now, cutoff, session))
      && (session !in owned ==>
           (session in StaleSessions(first, cutoff, active) <==>
             !HasEventSince(rows, session, cutoff) && session !in active))
  {
    hide OwnedByReaped, ReapedSessions, WithoutAll, Survives, HasEventSince;
    var owned := ReapedSessions(snapshots, now, active);
    var first := WithoutAll(rows, owned);
    var session := rows[k].session;
    if session !in owned {
      WithoutAllMembers(rows, owned);
      assert rows[k] in first;
      var m :| 0 <= m < |first| && first[m] == rows[k];
      SinceStays(rows, owned, session, cutoff);
    }
  }

  lemma SinceStays(rows: seq<Event>, owned: set<nat>, session: nat, cutoff: int)
    requires session !in owned
    ensures HasEventSince(WithoutAll(rows, owned), session, cutoff) <==> HasEventSince(rows, session, cutoff)
  {
    hide WithoutAll;
    WithoutAllMembers(rows, owned);
    var first := WithoutAll(rows, owned);
    if HasEventSince(rows, session, cutoff) {
      var k :| 0 <= k < |rows| && rows[k].session == session && rows[k].created >= cutoff;
      assert rows[k] in first;
    }
    if HasEventSince(first, session, cutoff) {
      var k :| 0 <= k < |first| && first[k].session == session && first[k].created >= cutoff;
      assert first[k] in rows;
    }
  }

  /** After a sweep an event is stored exactly if it was before and its session
      survives. */
  lemma SweepKeepsSurvivors(rows: seq<Event>, snapshots: seq<Snapshot>, active: set<nat>, now: int, cutoff: int,
                            e: Event)
    ensures e in WithoutAll(rows, DeadSessions(rows, snapshots, active, now, cutoff))
       <==> e in rows && Survives(rows, snapshots, active, now, cutoff, e.session)
  {
    hide Survives, WithoutAll;
    WithoutAllMembers(rows, DeadSessions(rows, snapshots, active, now, cutoff));
  }

  /** Snapshots without those of an identifier. */
  function Dropped(snapshots: seq<Snapshot>, id: nat): seq<Snapshot> {
    if snapshots == [] then [] else (if snapshots[0].id == id then [] else [snapshots[0]]) + Dropped(snapshots[1..], id)
  }

  predicate DistinctSnapshots(snapshots: seq<Snapshot>) {
    forall i, j | 0 <= i < j < |snapshots| :: snapshots[i].id != snapshots[j].id
  }

  /** Snapshots without those of some identifiers. */
  function DroppedAll(snapshots: seq<Snapshot>, ids: set<nat>): seq<Snapshot> {
    if snapshots == [] then []
      else (if snapshots[0].id in ids then [] else [snapshots[0]]) + DroppedAll(snapshots[1..], ids)
  }

  class CoireStore {
    var rows: seq<Event>
    var snapshots: seq<Snapshot>
    const sources: SourceRegistry

    ghost predicate Valid()
      reads this
    {
      Distinct(rows) && DistinctSnapshots(snapshots)
    }

    constructor (sources: SourceRegistry)
      ensures Valid() && rows == [] && snapshots == [] && this.sources == sources
    {
      rows, snapshots, this.sources := [], [], sources;
    }

    /** Saves what is pending in a mailbox. Nothing else is saved. */
    method SaveSession(session: nat, coire: Coire) returns (count: nat)
      requires Valid()
      modifies this`rows
      ensures Valid() && rows == Saved(old(rows), coire.events, session) && count == |Waiting(coire.events, session)|
    {
      hide Selected, ByTime, Distinct;
      var events := ByTime(Selected(coire.events, session, AnyOrigin));
      for k := 0 to |events|
        invariant Valid() && rows == UpsertAll(old(rows), events[..k])
      {
        assert events[..k + 1][..k] == events[..k];
        UpsertKeepsDistinct(rows, events[k]);
        rows := Upsert(rows, events[k]);
      }
      assert events[..|events|] == events;
      count := |events|;
    }

    /** Writes the stored events into a mailbox under another session. An identifier
        already taken stops it, and what was written before stays. */
    method RestoreSessionAs(from: nat, into: nat, coire: Coire) returns (ok: bool, count: nat)
      requires coire.Valid()
      modifies coire
      ensures coire.Valid()
      ensures coire.events == WriteAll(old(coire.events), Restoring(rows, from, into))
      ensures ok == AllWritten(old(coire.events), Restoring(rows, from, into))
      ensures count == |coire.events| - |old(coire.events)|
    {
      hide ByTime, InSession, Distinct, Ids;
      var events := ByTime(InSession(rows, from));
      ghost var es := Moved(events, into);
      ok, count := true, 0;
      assert es[0..] == es;
      while count < |events|
        invariant count <= |events| && ok && coire.Valid() && count == |coire.events| - |old(coire.events)|
        invariant WriteAll(coire.events, es[count..]) == WriteAll(old(coire.events), es)
        invariant AllWritten(coire.events, es[count..]) == AllWritten(old(coire.events), es)
        decreases |events| - count
      {
        assert es[count..][1..] == es[count + 1..];
        ok := coire.WriteEvent(events[count].(session := into));
        if !ok {
          return;
        }
        count := count + 1;
      }
    }

    /** Before a resumed deduction runs, both saved mailboxes are restored under its own
        sessions; the second is not tried if a write of the first failed. */
    method RestoreFrom(previous: Engines, s: Engines, coire: Coire) returns (ok: bool)
      requires coire.Valid()
      modifies coire
      ensures coire.Valid()
      ensures var first, second := Restoring(rows, previous.prolog, s.prolog), Restoring(rows, previous.clips, s.clips);
        var half := WriteAll(old(coire.events), first);
        && ok == (AllWritten(old(coire.events), first) && AllWritten(half, second))
        && coire.events == if AllWritten(old(coire.events), first) then WriteAll(half, second) else half
    {
      hide Restoring, WriteAll, AllWritten;
      var count;
      ok, count := RestoreSessionAs(previous.prolog, s.prolog, coire);
      if ok {
        ok, count := RestoreSessionAs(previous.clips, s.clips, coire);
      }
    }

    /** At the end of a deduction both mailboxes are saved and then emptied. */
    method SaveAndEvict(s: Engines, coire: Coire)
      requires Valid() && coire.Valid()
      modifies this`rows, coire
      ensures Valid() && coire.Valid()
      ensures rows == SavedBoth(old(rows), old(coire.events), s)
      ensures coire.events == Without(Without(old(coire.events), s.prolog), s.clips)
    {
      var saved := SaveSession(s.prolog, coire);
      saved := SaveSession(s.clips, coire);
      var cleared := coire.ClearSession(s.prolog);
      cleared := coire.ClearSession(s.clips);
    }

    /** Deletes a snapshot and the events of both its sessions; does nothing if there
        is no such snapshot. */
    method DeleteSnapshot(id: nat) returns (removed: nat)
      requires Valid()
      modifies this`rows, this`snapshots
      ensures Valid()
      ensures forall s | s in old(snapshots) && s.id == id :: rows == Without(Without(old(rows), s.prolog), s.clips)
      ensures (forall s | s in old(snapshots) :: s.id != id) ==> rows == old(rows)
      ensures snapshots == Dropped(old(snapshots), id) && removed == |old(rows)| - |rows|
    {
      removed := 0;
      for k := 0 to |snapshots|
        invariant forall i | 0 <= i < k :: snapshots[i].id != id
      {
        if snapshots[k].id == id {
          removed := DeleteFound(snapshots[k]);
          return;
        }
      }
      NotThere(snapshots, id);
    }

    method DeleteFound(s: Snapshot) returns (removed: nat)
      requires Valid() && s in snapshots
      modifies this`rows, this`snapshots
      ensures Valid() && rows == Without(Without(old(rows), s.prolog), s.clips)
      ensures snapshots == Dropped(old(snapshots), s.id) && removed == |old(rows)| - |rows|
    {
      hide Distinct, DistinctSnapshots, Without, Dropped;
      DroppedMembers(snapshots, s.id);
      WithoutMembers(rows, s.prolog);
      WithoutMembers(Without(rows, s.prolog), s.clips);
      var count := |rows|;
      rows := Without(Without(rows, s.prolog), s.clips);
      removed := count - |rows|;
      snapshots := Dropped(snapshots, s.id);
    }

    /** Pass 2: sessions go whose newest event is too old. */
    method SweepStale(cutoff: int, active: set<nat>) returns (deleted: nat)
      requires Valid()
      modifies this`rows
      ensures Valid() && rows == WithoutAll(old(rows), StaleSessions(old(rows), cutoff, active))
      ensures deleted == |old(rows)| - |rows|
    {
      hide Distinct, DistinctSnapshots, Without, WithoutAll, StaleSessions;
      ghost var first := rows;
      var stale := StaleSessions(rows, cutoff, active);
      var todo := stale;
      deleted := 0;
      WithoutNone(rows);
      assert stale - todo == {};
      while todo != {}
        invariant todo <= stale && Valid() && rows == WithoutAll(first, stale - todo) && deleted == |first| - |rows|
        decreases todo
      {
        var session :| session in todo;
        WithoutMembers(rows, session);
        WithoutOneMore(first, stale - todo, session);
        assert stale - todo + {session} == stale - (todo - {session});
        var kept := Without(rows, session);
        deleted := deleted + (|rows| - |kept|);
        rows := kept;
        todo := todo - {session};
      }
      assert stale - todo == stale;
    }
  }

  lemma DroppingNone(rows: seq<Event>, snapshots: seq<Snapshot>)
    ensures WithoutAll(rows, SessionsOf([])) == rows && DroppedAll(snapshots, SnapshotIds([])) == snapshots
  {
    hide WithoutAll, DroppedAll;
    assert SessionsOf([]) == {} && SnapshotIds([]) == {};
    WithoutNone(rows);
    NoneDropped(snapshots);
  }

  lemma {:induction false} NoneDropped(snapshots: seq<Snapshot>)
    ensures DroppedAll(snapshots, {}) == snapshots
  {
    if snapshots != [] {
      NoneDropped(snapshots[1..]);
    }
  }

  lemma {:induction false} DroppedOneMore(snapshots: seq<Snapshot>, ids: set<nat>, id: nat)
    ensures Dropped(DroppedAll(snapshots, ids), id) == DroppedAll(snapshots, ids + {id})
  {
    if snapshots != [] {
      DroppedOneMore(snapshots[1..], ids, id);
      var rest := DroppedAll(snapshots[1..], ids);
      assert ([snapshots[0]] + rest)[1..] == rest && [] + rest == rest;
    }
  }

  lemma {:induction false} DroppedAllMembers(snapshots: seq<Snapshot>, ids: set<nat>)
    ensures forall s :: s in DroppedAll(snapshots, ids) <==> s in snapshots && s.id !in ids
  {
    if snapshots != [] {
      DroppedAllMembers(snapshots[1..], ids);
      assert snapshots == [snapshots[0]] + snapshots[1..];
    }
  }

  lemma DroppingOneMore(rows: seq<Event>, snapshots: seq<Snapshot>, expired: seq<Snapshot>, k: nat)
    requires k < |expired| && DistinctSnapshots(expired) && forall s | s in expired :: s in snapshots
    ensures expired[k] in DroppedAll(snapshots, SnapshotIds(expired[..k]))
    ensures Without(Without(WithoutAll(rows, SessionsOf(expired[..k])), expired[k].prolog), expired[k].clips)
         == WithoutAll(rows, SessionsOf(expired[..k + 1]))
    ensures Dropped(DroppedAll(snapshots, SnapshotIds(expired[..k])), expired[k].id)
      == DroppedAll(snapshots, SnapshotIds(expired[..k + 1]))
  {
    hide WithoutAll, Without, DroppedAll, Dropped;
    var gone, s := expired[..k], expired[k];
    assert expired[..k + 1] == gone + [s];
    assert SessionsOf(gone + [s]) == SessionsOf(gone) + {s.prolog} + {s.clips};
    assert SnapshotIds(gone + [s]) == SnapshotIds(gone) + {s.id};
    WithoutOneMore(rows, SessionsOf(gone), s.prolog);
    WithoutOneMore(rows, SessionsOf(gone) + {s.prolog}, s.clips);
    DroppedOneMore(snapshots, SnapshotIds(gone), s.id);
    DroppedAllMembers(snapshots, SnapshotIds(gone));
  }

  /** Dropping the expired snapshots by identifier keeps exactly the others. */
  lemma KeepingIsDropping(snapshots: seq<Snapshot>, now: int, active: set<nat>)
    requires DistinctSnapshots(snapshots)
    ensures DroppedAll(snapshots, SnapshotIds(Expired(snapshots, now, active))) == Keeping(snapshots, now, active)
    ensures |Keeping(snapshots, now, active)| + |Expired(snapshots, now, active)| == |snapshots|
  {
    hide Reaped, Expired;
    ExpiredMembers(snapshots, now, active);
    var ids := SnapshotIds(Expired(snapshots, now, active));
    forall k | 0 <= k < |snapshots| ensures snapshots[k].id in ids <==> Reaped(snapshots[k], now, active) {
      assert snapshots[k] in snapshots;
    }
    DroppedByIds(snapshots, ids, now, active);
    KeptAndExpired(snapshots, now, active);
  }

  lemma {:induction false} DroppedByIds(snapshots: seq<Snapshot>, ids: set<nat>, now: int, active: set<nat>)
    requires forall k | 0 <= k < |snapshots| :: snapshots[k].id in ids <==> Reaped(snapshots[k], now, active)
    ensures DroppedAll(snapshots, ids) == Keeping(snapshots, now, active)
  {
    hide Reaped;
    if snapshots != [] {
      DroppedByIds(snapshots[1..], ids, now, active);
    }
  }

  lemma {:induction false} KeptAndExpired(snapshots: seq<Snapshot>, now: int, active: set<nat>)
    ensures |Keeping(snapshots, now, active)| + |Expired(snapshots, now, active)| == |snapshots|
  {
    hide Reaped;
    if snapshots != [] {
      KeptAndExpired(snapshots[1..], now, active);
    }
  }

  lemma UpsertKeepsDistinct(rows: seq<Event>, e: Event)
    requires Distinct(rows)
    ensures Distinct(Upsert(rows, e))
  {
    assert forall k | 0 <= k < |rows| :: rows[k].id in Ids(rows);
  }

  lemma {:induction false} DroppedMembers(snapshots: seq<Snapshot>, id: nat)
    ensures forall s :: s in Dropped(snapshots, id) <==> s in snapshots && s.id != id
    ensures DistinctSnapshots(snapshots) ==> DistinctSnapshots(Dropped(snapshots, id))
  {
    if snapshots != [] {
      DroppedMembers(snapshots[1..], id);
      assert snapshots == [snapshots[0]] + snapshots[1..];
      if DistinctSnapshots(snapshots) {
        var rest := Dropped(snapshots[1..], id);
        forall k | 0 <= k < |rest| ensures rest[k].id != snapshots[0].id {
          assert rest[k] in snapshots[1..];
        }
      }
    }
  }

  lemma {:induction false} NotThere(snapshots: seq<Snapshot>, id: nat)
    requires forall s | s in snapshots :: s.id != id
    ensures Dropped(snapshots, id) == snapshots
  {
    if snapshots != [] {
      assert snapshots[0] in snapshots && forall s | s in snapshots[1..] :: s in snapshots;
      NotThere(snapshots[1..], id);
    }
  }

  // Resuming a saved session

  lemma {:induction false} InSessionMembers(rows: seq<Event>, session: nat)
    ensures forall e :: e in InSession(rows, session) <==> e in rows && e.session == session
    ensures Distinct(rows) ==> Distinct(InSession(rows, session))
  {
    hide Distinct;
    if rows != [] {
      InSessionMembers(rows[1..], session);
      assert rows == [rows[0]] + rows[1..];
      if Distinct(rows) {
        DistinctTail(rows);
        var rest := InSession(rows[1..], session);
        DistinctCons(rows[0], rest);
        assert [] + rest == rest;
      }
    }
  }

  lemma SameMembers(a: seq<Event>, b: seq<Event>)
    requires multiset(a) == multiset(b)
    ensures forall e :: e in a <==> e in b
    ensures Distinct(a) ==> Distinct(b)
  {
    hide Distinct;
    assert forall e :: e in a <==> e in multiset(a);
    assert forall e :: e in b <==> e in multiset(b);
    if Distinct(a) {
      PermutationIsDistinct(a, b);
    }
  }

  lemma WaitingMembers(rows: seq<Event>, session: nat)
    ensures forall e :: e in Waiting(rows, session) <==> e in rows && e.session == session && e.status == Pending
    ensures Distinct(rows) ==> Distinct(Waiting(rows, session))
  {
    hide Distinct, ByTime, Selected;
    SelectedMembers(rows, session, AnyOrigin);
    OrderingByTime(Selected(rows, session, AnyOrigin));
    SameMembers(Selected(rows, session, AnyOrigin), Waiting(rows, session));
  }

  lemma StoredMembers(rows: seq<Event>, session: nat)
    ensures forall e :: e in Stored(rows, session) <==> e in rows && e.session == session
    ensures Distinct(rows) ==> Distinct(Stored(rows, session))
  {
    hide Distinct, ByTime, InSession;
    InSessionMembers(rows, session);
    OrderingByTime(InSession(rows, session));
    SameMembers(InSession(rows, session), Stored(rows, session));
  }

  lemma UpsertMembers(rows: seq<Event>, e: Event)
    requires Distinct(rows)
    ensures Distinct(Upsert(rows, e))
    ensures forall r :: r in Upsert(rows, e) <==> r == e || (r in rows && r.id != e.id)
  {
    UpsertKeepsDistinct(rows, e);
    var after := Upsert(rows, e);
    forall r | r in rows && r.id != e.id ensures r in after {
      var k :| 0 <= k < |rows| && rows[k] == r;
      assert after[k] == r;
    }
    if e.id in Ids(rows) {
      var k :| 0 <= k < |rows| && rows[k].id == e.id;
      assert after[k] == e;
    } else {
      assert after[|rows|] == e;
      assert forall r | r in rows :: r.id in Ids(rows);
    }
  }

  /** Saving writes every event given, and overwrites whatever had their identifiers. */
  lemma {:induction false} UpsertAllMembers(rows: seq<Event>, es: seq<Event>)
    requires Distinct(rows) && Distinct(es)
    ensures Distinct(UpsertAll(rows, es))
    ensures forall r :: r in UpsertAll(rows, es) <==> r in es || (r in rows && r.id !in Ids(es))
  {
    hide Distinct, Upsert, Ids;
    if es != [] {
      var most, last := es[..|es| - 1], es[|es| - 1];
      assert es == most + [last];
      LastIsNew(most, last);
      UpsertAllMembers(rows, most);
      UpsertMembers(UpsertAll(rows, most), last);
    } else {
      NoIds();
    }
  }

  lemma NoIds()
    ensures Ids([]) == {}
  {
  }

  lemma LastIsNew(most: seq<Event>, last: Event)
    requires Distinct(most + [last])
    ensures Distinct(most) && Ids(most + [last]) == Ids(most) + {last.id} && forall e | e in most :: e.id != last.id
  {
    var es := most + [last];
    assert forall k | 0 <= k < |most| :: es[k] == most[k];
    assert es[|most|] == last;
    assert forall k | 0 <= k < |es| :: es[k].id in Ids(most) || es[k].id == last.id;
  }
}
