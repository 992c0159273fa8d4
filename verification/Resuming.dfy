/** Resuming a saved deduction: exactly when what was pending comes back, and nothing
    else, although the store may hold older events and a write of the restore may fail. */
module Resuming {
  import opened Wrappers
  import opened Mailbox
  import opened Relay
  import opened Storage

  // One session

  /** The mailbox after a session was saved, emptied, and restored under a new one. */
  function Resumed(store: seq<Event>, mailbox: seq<Event>, from: nat, into: nat): seq<Event> {
    WriteAll(Without(mailbox, from), Restoring(Saved(store, mailbox, from), from, into))
  }

  /** No write of the restore fails. */
  predicate Succeeds(store: seq<Event>, mailbox: seq<Event>, from: nat, into: nat) {
    AllWritten(Without(mailbox, from), Restoring(Saved(store, mailbox, from), from, into))
  }

  predicate PendingIn(mailbox: seq<Event>, session: nat, e: Event) {
    e in mailbox && e.session == session && e.status == Pending
  }

  /** The events of the new session are exactly those that were pending in the old. */
  ghost predicate ResumesSession(resumed: seq<Event>, mailbox: seq<Event>, from: nat, into: nat) {
    forall e: Event | e.session == into ::
      e in resumed <==> exists p :: PendingIn(mailbox, from, p) && e == p.(session := into)
  }

  /** No event of the session was stored before, other than ones pending again now. */
  predicate NothingStale(store: seq<Event>, mailbox: seq<Event>, session: nat) {
    forall e | e in store && e.session == session :: e.id in Ids(Waiting(mailbox, session))
  }

  /** The session has not been used yet. */
  predicate IsNew(mailbox: seq<Event>, session: nat) { forall e | e in mailbox :: e.session != session }

  /** The stored events begin with all the pending ones, and the next is under an
      identifier that another session still has: the restore fails just there. */
  predicate StaleIsShutOut(store: seq<Event>, mailbox: seq<Event>, from: nat) {
    var es, waiting := Stored(Saved(store, mailbox, from), from), Waiting(mailbox, from);
    && |waiting| < |es| && es[|waiting|].id in Ids(Without(mailbox, from))
    && forall k | 0 <= k < |waiting| :: es[k].id in Ids(waiting)
  }

  method SaveAndResume(store: CoireStore, from: nat, into: nat, coire: Coire) returns (ok: bool)
    requires store.Valid() && coire.Valid() && IsNew(coire.events, into)
    modifies store`rows, coire
    ensures store.Valid() && coire.Valid() && store.rows == Saved(old(store.rows), old(coire.events), from)
    ensures coire.events == Resumed(old(store.rows), old(coire.events), from, into)
    ensures ok == Succeeds(old(store.rows), old(coire.events), from, into)
    ensures ok && ResumesSession(coire.events, old(coire.events), from, into)
       <==> NothingStale(old(store.rows), old(coire.events), from)
  {
    hide Saved, Restoring, WriteAll, AllWritten, ResumesSession, NothingStale, IsNew;
    ResumesExactlyIff(store.rows, coire.events, from, into);
    var count := store.SaveSession(from, coire);
    count := coire.ClearSession(from);
    ok, count := store.RestoreSessionAs(from, into, coire);
  }

  // What the restore writes

  lemma {:induction false} WritesPrefix(rows: seq<Event>, es: seq<Event>) returns (n: nat)
    requires Distinct(es)
    ensures n <= |es| && WriteAll(rows, es) == rows + es[..n] && AllWritten(rows, es) == (n == |es|)
    ensures forall k | 0 <= k < n :: es[k].id !in Ids(rows)
    ensures n < |es| ==> es[n].id in Ids(rows)
    decreases es
  {
    hide Ids;
    if es == [] || es[0].id in Ids(rows) {
      n := 0;
      assert rows + es[..0] == rows;
    } else {
      n := WritesPrefix(rows + [es[0]], es[1..]);
      OneMoreId(rows, es[0]);
      assert forall k | 0 < k < |es| :: es[k] == es[1..][k - 1] && es[k].id != es[0].id;
      assert rows + [es[0]] + es[1..][..n] == rows + es[..n + 1];
      n := n + 1;
    }
  }

  lemma OneMoreId(rows: seq<Event>, e: Event)
    ensures Ids(rows + [e]) == Ids(rows) + {e.id}
  {
    var all := rows + [e];
    assert forall k | 0 <= k < |rows| :: all[k] == rows[k];
    assert all[|rows|] == e;
  }

  lemma SavedInSession(store: seq<Event>, mailbox: seq<Event>, from: nat, e: Event)
    requires Distinct(store) && Distinct(mailbox)
    ensures e in Stored(Saved(store, mailbox, from), from) <==>
      || PendingIn(mailbox, from, e)
      || (e in store && e.session == from && e.id !in Ids(Waiting(mailbox, from)))
  {
    hide Distinct, Waiting, UpsertAll, Ids, Stored;
    WaitingMembers(mailbox, from);
    UpsertAllMembers(store, Waiting(mailbox, from));
    StoredMembers(Saved(store, mailbox, from), from);
  }

  lemma SavedIsDistinct(store: seq<Event>, mailbox: seq<Event>, from: nat)
    requires Distinct(store) && Distinct(mailbox)
    ensures Distinct(Stored(Saved(store, mailbox, from), from))
  {
    hide Distinct, Waiting, UpsertAll, Stored;
    WaitingMembers(mailbox, from);
    UpsertAllMembers(store, Waiting(mailbox, from));
    StoredMembers(Saved(store, mailbox, from), from);
  }

  lemma MovedMembers(es: seq<Event>, into: nat)
    ensures forall e :: e in Moved(es, into) <==> exists r :: r in es && e == r.(session := into)
  {
    forall r | r in es ensures r.(session := into) in Moved(es, into) {
      var k :| 0 <= k < |es| && es[k] == r;
      assert Moved(es, into)[k] == r.(session := into);
    }
  }

  lemma MovedKeepsIds(es: seq<Event>, into: nat)
    ensures Distinct(es) ==> Distinct(Moved(es, into))
    ensures forall n: nat | n <= |es| :: Moved(es, into)[..n] == Moved(es[..n], into)
    ensures Ids(Moved(es, into)) == Ids(es)
  {
    var moved := Moved(es, into);
    assert forall k | 0 <= k < |es| :: moved[k].id == es[k].id;
  }

  lemma PendingHasId(mailbox: seq<Event>, session: nat, p: Event)
    requires PendingIn(mailbox, session, p)
    ensures p.id in Ids(Waiting(mailbox, session))
  {
    hide Waiting;
    WaitingMembers(mailbox, session);
    var k :| 0 <= k < |Waiting(mailbox, session)| && Waiting(mailbox, session)[k] == p;
  }

  /** The resumed session is exact when what was written of it is what was pending. */
  lemma ResumesIff(resumed: seq<Event>, es: seq<Event>, mailbox: seq<Event>, from: nat, into: nat)
    requires forall r | r in es :: r.session == from
    requires forall e: Event | e.session == into :: e in resumed <==> e in Moved(es, into)
    ensures ResumesSession(resumed, mailbox, from, into) <==>
      forall r: Event :: r in es <==> PendingIn(mailbox, from, r)
  {
    hide Moved;
    MovedMembers(es, into);
    if ResumesSession(resumed, mailbox, from, into) {
      forall r: Event ensures r in es <==> PendingIn(mailbox, from, r) {
        var e := r.(session := into);
        if r in es {
          assert e in resumed;
          var p :| PendingIn(mailbox, from, p) && e == p.(session := into);
          assert p.(session := from) == p && e.(session := from) == r;
        }
      }
    }
  }

  /** What was written of one session. */
  lemma WrittenPart(store: seq<Event>, mailbox: seq<Event>, from: nat, into: nat) returns (n: nat)
    requires Distinct(store) && Distinct(mailbox) && IsNew(mailbox, into)
    ensures var es, left := Stored(Saved(store, mailbox, from), from), Without(mailbox, from);
      && n <= |es| && Distinct(es) && Resumed(store, mailbox, from, into) == left + Moved(es[..n], into)
      && (Succeeds(store, mailbox, from, into) <==> n == |es|)
      && (forall k | 0 <= k < n :: es[k].id !in Ids(left)) && (n < |es| ==> es[n].id in Ids(left))
      && (ResumesSession(Resumed(store, mailbox, from, into), mailbox, from, into)
          <==> forall r: Event :: r in es[..n] <==> PendingIn(mailbox, from, r))
  {
    hide Distinct, Saved, Stored, Without, Moved, Ids, WriteAll, AllWritten, ResumesSession, PendingIn;
    var es, left := Stored(Saved(store, mailbox, from), from), Without(mailbox, from);
    SavedIsDistinct(store, mailbox, from);
    MovedKeepsIds(es, into);
    MovedIds(es, into);
    n := WritesPrefix(left, Moved(es, into));
    WithoutMembers(mailbox, from);
    SavedSession(store, mailbox, from);
    MovedMembers(es[..n], into);
    ResumesIff(left + Moved(es[..n], into), es[..n], mailbox, from, into);
  }

  lemma MovedIds(es: seq<Event>, into: nat)
    ensures |Moved(es, into)| == |es| && forall k | 0 <= k < |es| :: Moved(es, into)[k].id == es[k].id
  {
  }

  lemma SavedSession(store: seq<Event>, mailbox: seq<Event>, from: nat)
    ensures forall r | r in Stored(Saved(store, mailbox, from), from) :: r.session == from
  {
    hide Stored, Saved;
    StoredMembers(Saved(store, mailbox, from), from);
  }

  // Exactly when

  lemma AllPendingIff(store: seq<Event>, mailbox: seq<Event>, from: nat)
    requires Distinct(store) && Distinct(mailbox)
    ensures NothingStale(store, mailbox, from) <==>
      forall r: Event :: r in Stored(Saved(store, mailbox, from), from) <==> PendingIn(mailbox, from, r)
  {
    hide Distinct, Saved, Stored, Waiting, Ids;
    forall r: Event
      ensures r in Stored(Saved(store, mailbox, from), from) <==>
        PendingIn(mailbox, from, r) || (r in store && r.session == from && r.id !in Ids(Waiting(mailbox, from)))
      ensures PendingIn(mailbox, from, r) ==> r.id in Ids(Waiting(mailbox, from))
    {
      SavedInSession(store, mailbox, from, r);
      if PendingIn(mailbox, from, r) {
        PendingHasId(mailbox, from, r);
      }
    }
  }

  lemma PendingIsFree(mailbox: seq<Event>, from: nat, p: Event)
    requires Distinct(mailbox) && PendingIn(mailbox, from, p)
    ensures p.id !in Ids(Without(mailbox, from))
  {
    hide Without;
    WithoutMembers(mailbox, from);
    var left := Without(mailbox, from);
    forall k | 0 <= k < |left| ensures left[k].id != p.id {
      assert left[k] in left;
      DifferentSessions(mailbox, left[k], p);
    }
  }

  lemma DifferentSessions(rows: seq<Event>, a: Event, b: Event)
    requires Distinct(rows) && a in rows && b in rows && a.session != b.session
    ensures a.id != b.id
  {
  }

  /** Saving a session, emptying its mailbox and restoring it under a new identifier
      succeeds and gives exactly the events that were pending, moved to the new session,
      if and only if nothing stale was stored for the session. */
  lemma ResumesExactlyIff(store: seq<Event>, mailbox: seq<Event>, from: nat, into: nat)
    requires Distinct(store) && Distinct(mailbox) && IsNew(mailbox, into)
    ensures Succeeds(store, mailbox, from, into)
        && ResumesSession(Resumed(store, mailbox, from, into), mailbox, from, into)
      <==> NothingStale(store, mailbox, from)
  {
    hide Distinct, Saved, Stored, Without, Moved, Ids, Succeeds, Resumed, ResumesSession, PendingIn,
        NothingStale, IsNew;
    var es := Stored(Saved(store, mailbox, from), from);
    var n := WrittenPart(store, mailbox, from, into);
    assert es[..|es|] == es;
    AllPendingIff(store, mailbox, from);
    if NothingStale(store, mailbox, from) && n < |es| {
      assert es[n] in es;
      PendingIsFree(mailbox, from, es[n]);
    }
  }

  function Members(es: seq<Event>): set<Event> { set e | e in es }

  lemma {:induction false} MembersSize(es: seq<Event>)
    requires Distinct(es)
    ensures |Members(es)| == |es|
  {
    if es != [] {
      var most, last := es[..|es| - 1], es[|es| - 1];
      assert es == most + [last];
      LastIsNew(most, last);
      MembersSize(most);
      assert Members(es) == Members(most) + {last};
    }
  }

  lemma SubsetOfSameSize(a: set<Event>, b: set<Event>)
    requires a <= b && |a| == |b|
    ensures a == b
  {
    assert |b - a| == |b| - |a|;
    assert b == a + (b - a);
  }

  lemma DistinctPrefix(es: seq<Event>, n: nat)
    requires Distinct(es) && n <= |es|
    ensures Distinct(es[..n])
  {
  }

  /** A prefix of the stored events is what was pending exactly if it is as long and has
      only identifiers of pending events. */
  lemma PendingPrefixIff(store: seq<Event>, mailbox: seq<Event>, from: nat, n: nat)
    requires Distinct(store) && Distinct(mailbox) && n <= |Stored(Saved(store, mailbox, from), from)|
    ensures var es, waiting := Stored(Saved(store, mailbox, from), from), Waiting(mailbox, from);
      (forall r: Event :: r in es[..n] <==> PendingIn(mailbox, from, r))
      <==> n == |waiting| && forall k | 0 <= k < n :: es[k].id in Ids(waiting)
  {
    hide Distinct, Saved, Stored, Waiting, Ids;
    var es, waiting := Stored(Saved(store, mailbox, from), from), Waiting(mailbox, from);
    SavedIsDistinct(store, mailbox, from);
    DistinctPrefix(es, n);
    WaitingMembers(mailbox, from);
    MembersSize(es[..n]);
    MembersSize(waiting);
    if forall r: Event :: r in es[..n] <==> PendingIn(mailbox, from, r) {
      assert Members(es[..n]) == Members(waiting);
      forall k | 0 <= k < n ensures es[k].id in Ids(waiting) {
        assert es[k] in es[..n];
        PendingHasId(mailbox, from, es[k]);
      }
    }
    if n == |waiting| && forall k | 0 <= k < n :: es[k].id in Ids(waiting) {
      forall r | r in es[..n] ensures r in waiting {
        SavedInSession(store, mailbox, from, r);
      }
      SubsetOfSameSize(Members(es[..n]), Members(waiting));
      assert forall r: Event :: r in es[..n] <==> r in Members(es[..n]);
      assert forall r: Event :: r in waiting <==> r in Members(waiting);
    }
  }

  /** Whether or not the restore reports a failure: it gives exactly the events that were
      pending if and only if nothing stale was stored, or it fails just at the first stale
      event, when all the pending ones have been written. */
  lemma ResumesOrFailsInTime(store: seq<Event>, mailbox: seq<Event>, from: nat, into: nat)
    requires Distinct(store) && Distinct(mailbox) && IsNew(mailbox, into)
    ensures ResumesSession(Resumed(store, mailbox, from, into), mailbox, from, into)
       <==> NothingStale(store, mailbox, from) || StaleIsShutOut(store, mailbox, from)
  {
    hide Distinct, Saved, Stored, Without, Moved, Ids, Succeeds, Resumed, ResumesSession, PendingIn, NothingStale,
        IsNew, Waiting;
    var es, waiting := Stored(Saved(store, mailbox, from), from), Waiting(mailbox, from);
    var n := WrittenPart(store, mailbox, from, into);
    ResumesExactlyIff(store, mailbox, from, into);
    PendingPrefixIff(store, mailbox, from, n);
    if StaleIsShutOut(store, mailbox, from) {
      if n < |waiting| {
        BlockedIsStale(store, mailbox, from, n);
      }
    } else if ResumesSession(Resumed(store, mailbox, from, into), mailbox, from, into) {
      assert n == |es|;
    }
  }

  /** No pending event blocks the restore. */
  lemma BlockedIsStale(store: seq<Event>, mailbox: seq<Event>, from: nat, n: nat)
    requires Distinct(store) && Distinct(mailbox) && n < |Stored(Saved(store, mailbox, from), from)|
    requires Stored(Saved(store, mailbox, from), from)[n].id in Ids(Without(mailbox, from))
    ensures Stored(Saved(store, mailbox, from), from)[n].id !in Ids(Waiting(mailbox, from))
  {
    hide Distinct, Saved, Stored, Without, Waiting, Ids;
    var e := Stored(Saved(store, mailbox, from), from)[n];
    SavedInSession(store, mailbox, from, e);
    if PendingIn(mailbox, from, e) {
      PendingIsFree(mailbox, from, e);
    }
  }

  /** Whatever was stored: no two events share an identifier, and other sessions keep
      their events. */
  lemma ResumingDisturbsNothing(store: seq<Event>, mailbox: seq<Event>, from: nat, into: nat)
    requires Distinct(store) && Distinct(mailbox) && from != into && IsNew(mailbox, into)
    ensures Distinct(Resumed(store, mailbox, from, into))
    ensures forall e: Event | e.session != into ::
      e in Resumed(store, mailbox, from, into) <==> e in mailbox && e.session != from
  {
    hide Saved, Stored, Without, Moved, Resumed, Succeeds, ResumesSession, PendingIn, IsNew;
    var es, left := Stored(Saved(store, mailbox, from), from), Without(mailbox, from);
    var n := WrittenPart(store, mailbox, from, into);
    WithoutMembers(mailbox, from);
    MovedMembers(es[..n], into);
    MovedIds(es[..n], into);
    assert forall k | 0 <= k < n :: es[..n][k] == es[k];
  }

  // Both sessions of a deduction

  /** The mailbox after both sessions were saved, emptied, and restored under new ones. */
  function ResumedBoth(store: seq<Event>, mailbox: seq<Event>, s: Engines, into: Engines): seq<Event> {
    var saved, left := SavedBoth(store, mailbox, s), Without(Without(mailbox, s.prolog), s.clips);
    var half := WriteAll(left, Restoring(saved, s.prolog, into.prolog));
    if AllWritten(left, Restoring(saved, s.prolog, into.prolog))
      then WriteAll(half, Restoring(saved, s.clips, into.clips)) else half
  }

  predicate BothSucceed(store: seq<Event>, mailbox: seq<Event>, s: Engines, into: Engines) {
    var saved, left := SavedBoth(store, mailbox, s), Without(Without(mailbox, s.prolog), s.clips);
    && AllWritten(left, Restoring(saved, s.prolog, into.prolog))
    && AllWritten(WriteAll(left, Restoring(saved, s.prolog, into.prolog)), Restoring(saved, s.clips, into.clips))
  }

  /** No event of either session was stored before, other than under an identifier that
      is pending again now in one of the two mailboxes. */
  predicate NothingStaleInBoth(store: seq<Event>, mailbox: seq<Event>, s: Engines) {
    forall e | e in store && (e.session == s.prolog || e.session == s.clips) ::
      e.id in Ids(Waiting(mailbox, s.prolog)) + Ids(Waiting(mailbox, s.clips))
  }

  ghost predicate BothResume(resumed: seq<Event>, mailbox: seq<Event>, s: Engines, into: Engines) {
    ResumesSession(resumed, mailbox, s.prolog, into.prolog) && ResumesSession(resumed, mailbox, s.clips, into.clips)
  }

  /** One deduction ends, and another resumes it under new sessions. */
  method EndAndResume(store: CoireStore, s: Engines, into: Engines, coire: Coire) returns (ok: bool)
    requires store.Valid() && coire.Valid() && s.prolog != s.clips && into.prolog != into.clips
    requires IsNew(coire.events, into.prolog) && IsNew(coire.events, into.clips)
    modifies store`rows, coire
    ensures store.Valid() && coire.Valid() && store.rows == SavedBoth(old(store.rows), old(coire.events), s)
    ensures coire.events == ResumedBoth(old(store.rows), old(coire.events), s, into)
    ensures ok == BothSucceed(old(store.rows), old(coire.events), s, into)
    ensures ok && BothResume(coire.events, old(coire.events), s, into)
       <==> NothingStaleInBoth(old(store.rows), old(coire.events), s)
  {
    hide SavedBoth, Restoring, WriteAll, AllWritten, BothResume, NothingStaleInBoth, IsNew;
    BothResumeExactlyIff(store.rows, coire.events, s, into);
    store.SaveAndEvict(s, coire);
    ok := store.RestoreFrom(s, into, coire);
  }

  lemma SavedBothMembers(store: seq<Event>, mailbox: seq<Event>, s: Engines, session: nat, e: Event)
    requires Distinct(store) && Distinct(mailbox) && s.prolog != s.clips && (session == s.prolog || session == s.clips)
    ensures e in Stored(SavedBoth(store, mailbox, s), session) <==>
      || PendingIn(mailbox, session, e)
      || (e in store && e.session == session
        && e.id !in Ids(Waiting(mailbox, s.prolog)) + Ids(Waiting(mailbox, s.clips)))
    ensures Distinct(Stored(SavedBoth(store, mailbox, s), session))
  {
    hide Distinct, Waiting, UpsertAll, Ids, Stored;
    WaitingMembers(mailbox, s.prolog);
    WaitingMembers(mailbox, s.clips);
    UpsertAllMembers(store, Waiting(mailbox, s.prolog));
    UpsertAllMembers(Saved(store, mailbox, s.prolog), Waiting(mailbox, s.clips));
    StoredMembers(SavedBoth(store, mailbox, s), session);
    if e.id in Ids(Waiting(mailbox, s.clips)) && PendingIn(mailbox, s.prolog, e) {
      PendingIsOne(mailbox, s, e);
    }
  }

  /** An event waits in one of the two mailboxes at most. */
  lemma PendingIsOne(mailbox: seq<Event>, s: Engines, e: Event)
    requires Distinct(mailbox) && s.prolog != s.clips && PendingIn(mailbox, s.prolog, e)
    ensures e.id !in Ids(Waiting(mailbox, s.clips))
  {
    hide Waiting;
    WaitingMembers(mailbox, s.clips);
    var waiting := Waiting(mailbox, s.clips);
    forall k | 0 <= k < |waiting| ensures waiting[k].id != e.id {
      assert waiting[k] in waiting;
      DifferentSessions(mailbox, waiting[k], e);
    }
  }

  /** When all writes succeed, both sessions get all that is stored for them. */
  lemma BothWritten(store: seq<Event>, mailbox: seq<Event>, s: Engines, into: Engines)
    requires Distinct(store) && Distinct(mailbox) && s.prolog != s.clips && BothSucceed(store, mailbox, s, into)
    ensures var saved := SavedBoth(store, mailbox, s);
      ResumedBoth(store, mailbox, s, into) == Without(Without(mailbox, s.prolog), s.clips)
        + Restoring(saved, s.prolog, into.prolog) + Restoring(saved, s.clips, into.clips)
  {
    hide Distinct, SavedBoth, Stored, Without, Moved, Ids, WriteAll, AllWritten;
    var saved, left := SavedBoth(store, mailbox, s), Without(Without(mailbox, s.prolog), s.clips);
    var first, second := Restoring(saved, s.prolog, into.prolog), Restoring(saved, s.clips, into.clips);
    RestoringIsDistinct(store, mailbox, s, s.prolog, into.prolog);
    RestoringIsDistinct(store, mailbox, s, s.clips, into.clips);
    var n := WritesPrefix(left, first);
    var m := WritesPrefix(left + first, second);
    assert first[..|first|] == first && second[..|second|] == second;
  }

  lemma RestoringIsDistinct(store: seq<Event>, mailbox: seq<Event>, s: Engines, session: nat, into: nat)
    requires Distinct(store) && Distinct(mailbox) && s.prolog != s.clips && (session == s.prolog || session == s.clips)
    ensures Distinct(Restoring(SavedBoth(store, mailbox, s), session, into))
  {
    hide Distinct, SavedBoth, Stored, Moved;
    var e: Event := Event(0, 0, "", 0, Payload(None, None, None, None, ""), Pending);
    SavedBothMembers(store, mailbox, s, session, e);
    MovedKeepsIds(Stored(SavedBoth(store, mailbox, s), session), into);
  }

  lemma AllPendingOfOneIff(store: seq<Event>, mailbox: seq<Event>, s: Engines, session: nat)
    requires Distinct(store) && Distinct(mailbox) && s.prolog != s.clips && (session == s.prolog || session == s.clips)
    ensures (forall r: Event ::
        r in Stored(SavedBoth(store, mailbox, s), session) <==> PendingIn(mailbox, session, r)) <==>
      forall e | e in store && e.session == session ::
        e.id in Ids(Waiting(mailbox, s.prolog)) + Ids(Waiting(mailbox, s.clips))
  {
    hide Distinct, SavedBoth, Stored, Waiting, Ids;
    var ids := Ids(Waiting(mailbox, s.prolog)) + Ids(Waiting(mailbox, s.clips));
    forall r: Event
      ensures r in Stored(SavedBoth(store, mailbox, s), session) <==>
        PendingIn(mailbox, session, r) || (r in store && r.session == session && r.id !in ids)
      ensures PendingIn(mailbox, session, r) ==> r.id in ids
    {
      SavedBothMembers(store, mailbox, s, session, r);
      if PendingIn(mailbox, session, r) {
        PendingHasId(mailbox, session, r);
      }
    }
  }

  lemma AllPendingInBothIff(store: seq<Event>, mailbox: seq<Event>, s: Engines)
    requires Distinct(store) && Distinct(mailbox) && s.prolog != s.clips
    ensures NothingStaleInBoth(store, mailbox, s) <==>
      && (forall r: Event :: r in Stored(SavedBoth(store, mailbox, s), s.prolog) <==> PendingIn(mailbox, s.prolog, r))
      && (forall r: Event :: r in Stored(SavedBoth(store, mailbox, s), s.clips) <==> PendingIn(mailbox, s.clips, r))
  {
    hide Distinct, SavedBoth, Stored, Waiting, Ids, PendingIn;
    AllPendingOfOneIff(store, mailbox, s, s.prolog);
    AllPendingOfOneIff(store, mailbox, s, s.clips);
  }

  lemma NoneStaleSucceeds(store: seq<Event>, mailbox: seq<Event>, s: Engines, into: Engines)
    requires Distinct(store) && Distinct(mailbox) && s.prolog != s.clips && NothingStaleInBoth(store, mailbox, s)
    ensures BothSucceed(store, mailbox, s, into)
  {
    hide Distinct, SavedBoth, Stored, Without, Moved, Ids, WriteAll, AllWritten, NothingStaleInBoth, PendingIn;
    var saved, left := SavedBoth(store, mailbox, s), Without(Without(mailbox, s.prolog), s.clips);
    var first, second := Restoring(saved, s.prolog, into.prolog), Restoring(saved, s.clips, into.clips);
    AllPendingInBothIff(store, mailbox, s);
    RestoringIsDistinct(store, mailbox, s, s.prolog, into.prolog);
    RestoringIsDistinct(store, mailbox, s, s.clips, into.clips);
    MovedIds(Stored(saved, s.prolog), into.prolog);
    MovedIds(Stored(saved, s.clips), into.clips);
    var n := WritesPrefix(left, first);
    if n < |first| {
      var p := Stored(saved, s.prolog)[n];
      assert p in Stored(saved, s.prolog);
      NotLeft(mailbox, s, p);
    }
    assert first[..|first|] == first;
    var m := WritesPrefix(left + first, second);
    if m < |second| {
      var p := Stored(saved, s.clips)[m];
      assert p in Stored(saved, s.clips);
      NotLeft(mailbox, s, p);
      NotInFirst(left, first, p);
      forall k | 0 <= k < |first| ensures first[k].id != p.id {
        assert Stored(saved, s.prolog)[k] in Stored(saved, s.prolog);
        PendingApart(mailbox, s, Stored(saved, s.prolog)[k], p);
      }
    }
  }

  lemma NotInFirst(left: seq<Event>, first: seq<Event>, p: Event)
    requires p.id in Ids(left + first) && p.id !in Ids(left)
    ensures exists k | 0 <= k < |first| :: first[k].id == p.id
  {
    assert forall k | 0 <= k < |left| :: left[k].id in Ids(left);
    var k :| 0 <= k < |left + first| && (left + first)[k].id == p.id;
    assert first[k - |left|].id == p.id;
  }

  lemma PendingApart(mailbox: seq<Event>, s: Engines, a: Event, b: Event)
    requires Distinct(mailbox) && s.prolog != s.clips && PendingIn(mailbox, s.prolog, a)
      && PendingIn(mailbox, s.clips, b)
    ensures a.id != b.id
  {
    DifferentSessions(mailbox, a, b);
  }

  lemma NotLeft(mailbox: seq<Event>, s: Engines, p: Event)
    requires Distinct(mailbox) && (PendingIn(mailbox, s.prolog, p) || PendingIn(mailbox, s.clips, p))
    ensures p.id !in Ids(Without(Without(mailbox, s.prolog), s.clips))
  {
    hide Without;
    WithoutMembers(mailbox, s.prolog);
    WithoutMembers(Without(mailbox, s.prolog), s.clips);
    var left := Without(Without(mailbox, s.prolog), s.clips);
    forall k | 0 <= k < |left| ensures left[k].id != p.id {
      assert left[k] in left;
      DifferentSessions(mailbox, left[k], p);
    }
  }

  lemma OneOfBothIff(store: seq<Event>, mailbox: seq<Event>, s: Engines, into: Engines, from: nat, to: nat)
    requires Distinct(store) && Distinct(mailbox) && s.prolog != s.clips && into.prolog != into.clips
    requires IsNew(mailbox, into.prolog) && IsNew(mailbox, into.clips) && BothSucceed(store, mailbox, s, into)
    requires (from == s.prolog && to == into.prolog) || (from == s.clips && to == into.clips)
    ensures ResumesSession(ResumedBoth(store, mailbox, s, into), mailbox, from, to) <==>
      forall r: Event :: r in Stored(SavedBoth(store, mailbox, s), from) <==> PendingIn(mailbox, from, r)
  {
    hide Distinct, SavedBoth, Stored, Without, Moved, ResumedBoth, BothSucceed, ResumesSession, PendingIn;
    var saved := SavedBoth(store, mailbox, s);
    BothWritten(store, mailbox, s, into);
    WithoutMembers(mailbox, s.prolog);
    WithoutMembers(Without(mailbox, s.prolog), s.clips);
    StoredMembers(saved, from);
    MovedMembers(Stored(saved, s.prolog), into.prolog);
    MovedMembers(Stored(saved, s.clips), into.clips);
    ResumesIff(ResumedBoth(store, mailbox, s, into), Stored(saved, from), mailbox, from, to);
  }

  /** After a deduction's two mailboxes were saved and emptied, restoring both under new
      identifiers succeeds and gives in each exactly the events that were pending in it, if
      and only if nothing stale of either was stored. */
  lemma BothResumeExactlyIff(store: seq<Event>, mailbox: seq<Event>, s: Engines, into: Engines)
    requires Distinct(store) && Distinct(mailbox) && s.prolog != s.clips && into.prolog != into.clips
    requires IsNew(mailbox, into.prolog) && IsNew(mailbox, into.clips)
    ensures BothSucceed(store, mailbox, s, into) && BothResume(ResumedBoth(store, mailbox, s, into), mailbox, s, into)
       <==> NothingStaleInBoth(store, mailbox, s)
  {
    hide Distinct, SavedBoth, Stored, PendingIn, IsNew, ResumesSession, ResumedBoth, BothSucceed, NothingStaleInBoth;
    AllPendingInBothIff(store, mailbox, s);
    if NothingStaleInBoth(store, mailbox, s) {
      NoneStaleSucceeds(store, mailbox, s, into);
    }
    if BothSucceed(store, mailbox, s, into) {
      OneOfBothIff(store, mailbox, s, into, s.prolog, into.prolog);
      OneOfBothIff(store, mailbox, s, into, s.clips, into.clips);
    }
  }
}
