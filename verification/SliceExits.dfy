/** How slices leave the store, and what that means for the removal of the composition's finalizer. */
module SliceExits {
  import opened Api
  import opened Lifecycle
  import opened Aggregation
  import opened History
  import opened Deletion
  import opened SliceCleanup
  import opened SynthesisRuns
  import opened CollectionSafety

  // ---------- One step ----------

  /** The only event that takes a slice out of the store is its release, which happens if and only if the
      slice is being deleted, is not newer than Current, and was overtaken, or Current is synthesized and
      everything in the slice is gone or neither synthesis refers to it. */
  lemma LeavesStoreExactly(s: State, ev: Event, name: SliceName)
    requires s.log.versions != [] && name in s.stored && name < |s.specs|
    ensures var c, slice := Newest(s.log), ResourceSlice(s.specs[name], s.stored[name].deleting, s.stored[name].status);
            name !in NextState(s, ev).stored <==>
              && ev == Release(name) && slice.deleting
              && c.current.Some? && slice.spec.generation <= c.current.value.observedGeneration
              && (|| Outdated(c, slice.spec)
                  || (c.current.value.synthesized.Some? && (EverythingGone(slice, c.orphan) || (!Named(c.current, name) && !Named(c.previous, name)))))
  {
    ReleasedExactly(Newest(s.log), name, ResourceSlice(s.specs[name], s.stored[name].deleting, s.stored[name].status));
  }

  // ---------- All runs ----------

  /** The slice left because everything in it was gone, or because its attempt had been overtaken. */
  ghost predicate LeftInOrder(s: State, name: SliceName) {
    && name in s.left
    && (EverythingGone(s.left[name].slice, s.left[name].comp.orphan) || Outdated(s.left[name].comp, s.left[name].slice.spec))
  }

  /** Every slice that is not there any more left in order, or will never be referred to again. */
  ghost predicate ExitsOk(s: State) {
    && (forall name <- s.left :: name < |s.specs| && name !in s.stored && s.left[name].slice.spec == s.specs[name])
    && (forall name :: 0 <= name < |s.specs| && name !in s.stored ==> LeftInOrder(s, name) || Doomed(s, name))
  }

  lemma ReleaseKeepsExits(s: State, name: SliceName, n: nat)
    requires Origins(s) && ExitsOk(s) && name in s.stored && name !in AfterRelease(s, name).stored
    requires n < |s.specs| && n !in AfterRelease(s, name).stored
    ensures LeftInOrder(AfterRelease(s, name), n) || Doomed(AfterRelease(s, name), n)
  {
    var t := AfterRelease(s, name);
    if n == name {
      LeavesStoreExactly(s, Release(name), name);
      if !LeftInOrder(t, name) {
        SettledMeansDoomed(s, name);
      }
    } else {
      assert LeftInOrder(s, n) || Doomed(s, n);
    }
  }

  lemma ExitAccounts(s: State, ev: Event, n: nat)
    requires Origins(s) && ExitsOk(s) && n < |NextState(s, ev).specs| && n !in NextState(s, ev).stored
    ensures LeftInOrder(NextState(s, ev), n) || Doomed(NextState(s, ev), n)
  {
    if n in s.stored {
      LeavesStoreExactly(s, ev, n);
      ReleaseKeepsExits(s, n, n);
    } else {
      NewSliceIsStored(s, ev, n);
      if Doomed(s, n) {
        DoomedStep(s, ev, n);
      } else {
        assert LeftInOrder(s, n);
        ExitStays(s, ev, n);
      }
    }
  }

  lemma NewSliceIsStored(s: State, ev: Event, n: nat)
    requires s.log.versions != [] && n < |NextState(s, ev).specs| && n !in NextState(s, ev).stored
    ensures n < |s.specs|
  {
  }

  lemma ExitIsRecorded(s: State, ev: Event, n: SliceName)
    requires Origins(s) && ExitsOk(s) && n in NextState(s, ev).left
    ensures var t := NextState(s, ev); n < |t.specs| && n !in t.stored && t.left[n].slice.spec == t.specs[n]
  {
    NextExtends(s, ev);
    if n in s.left { ExitStays(s, ev, n); }
  }

  lemma NextKeepsExits(s: State, ev: Event)
    requires Origins(s) && ExitsOk(s)
    ensures ExitsOk(NextState(s, ev))
  {
    forall n | 0 <= n < |NextState(s, ev).specs| && n !in NextState(s, ev).stored ensures LeftInOrder(NextState(s, ev), n) || Doomed(NextState(s, ev), n) {
      ExitAccounts(s, ev, n);
    }
    forall n <- NextState(s, ev).left
      ensures var t := NextState(s, ev); n < |t.specs| && n !in t.stored && t.left[n].slice.spec == t.specs[n]
    {
      ExitIsRecorded(s, ev, n);
    }
  }

  /** An exit is recorded once and for all. */
  lemma ExitStays(s: State, ev: Event, n: SliceName)
    requires s.log.versions != [] && n in s.left && n < |s.specs| && n !in s.stored
    ensures var t := NextState(s, ev); n in t.left && t.left[n] == s.left[n] && n !in t.stored
  {
  }

  /** All references are to slices that were created. */
  ghost predicate NamesOk(s: State)
    requires s.log.versions != []
  {
    forall name: SliceName :: Referenced(Newest(s.log), name) ==> name < |s.specs|
  }

  lemma NextKeepsNames(s: State, ev: Event)
    requires Origins(s) && NamesOk(s)
    ensures NamesOk(NextState(s, ev))
  {
    var t := NextState(s, ev);
    NextExtends(s, ev);
    forall name: SliceName | Referenced(Newest(t.log), name) ensures name < |t.specs| {
      if t.log != s.log && !Referenced(Newest(s.log), name) {
        var r := LogRequest(s, ev);
        NewReference(Newest(s.log), r.action, Newest(t.log), s.log.issued + 1, name);
        assert s.executors[ev.e] in s.executors;
        HolderIsAuthor(s, s.executors[ev.e], name);
      } else {
        assert Referenced(Newest(s.log), name);
      }
    }
  }

  // ---------- What the aggregation sees ----------

  /** The status aggregation takes a slice for gone only if it left the store, and sees it as it was
      recorded otherwise. */
  predicate HonestEntry(s: State, name: SliceName, entry: Option<ResourceSlice>) {
    match entry
    case None => name !in s.stored
    case Some(slice) =>
      && name < |s.specs| && slice.spec == s.specs[name]
      && forall i: nat :: i < |slice.status| && slice.status[i].reconciled ==> (name, i) in s.recorded
  }

  predicate Honest(s: State, ev: Event)
    requires s.log.versions != []
  {
    ev.Write? && ev.request.action.Aggregate? && Outcome(s.log, ev.request).Some? ==>
      var names, view := Newest(s.log).current.value.slices, ev.request.action.view;
      forall k :: 0 <= k < |view| && k < |names| ==> HonestEntry(s, names[k], view[k])
  }

  predicate HonestRun(c: Composition, events: seq<Event>) {
    events == [] ||
    (HonestRun(c, events[..|events| - 1]) && Honest(Execute(c, events[..|events| - 1]), events[|events| - 1]))
  }

  /** What an aggregation took for gone is gone, and what it saw is on record. */
  ghost predicate Confirmed(s: State, name: SliceName, entry: Option<ResourceSlice>) {
    match entry
    case None => LeftInOrder(s, name)
    case Some(slice) =>
      && name < |s.specs| && slice.spec == s.specs[name]
      && forall i: nat :: i < |slice.status| && slice.status[i].reconciled ==> (name, i) in s.recorded
  }

  ghost predicate WriteConfirmed(s: State, m: nat)
    requires m < |s.log.writes| && m < |s.log.versions|
  {
    var a, c := s.log.writes[m], s.log.versions[m];
    a.Aggregate? && c.current.Some? ==>
      forall k :: 0 <= k < |a.view| && k < |c.current.value.slices| ==> Confirmed(s, c.current.value.slices[k], a.view[k])
  }

  ghost predicate AllConfirmed(s: State) {
    |s.log.writes| < |s.log.versions| && forall m :: 0 <= m < |s.log.writes| ==> WriteConfirmed(s, m)
  }

  lemma ConfirmedStays(s: State, ev: Event, name: SliceName, entry: Option<ResourceSlice>)
    requires s.log.versions != [] && ExitsOk(s) && Confirmed(s, name, entry)
    ensures Confirmed(NextState(s, ev), name, entry)
  {
    NextExtends(s, ev);
    if entry.None? {
      ExitStays(s, ev, name);
    }
  }

  lemma HonestIsConfirmed(s: State, name: SliceName, entry: Option<ResourceSlice>)
    requires Origins(s) && ExitsOk(s) && NamesOk(s) && HonestEntry(s, name, entry) && References(Newest(s.log).current, name)
    ensures Confirmed(s, name, entry)
  {
    if entry.None? {
      assert Referenced(Newest(s.log), name);
      assert LeftInOrder(s, name) || Doomed(s, name);
    }
  }

  lemma NewWriteConfirmed(s: State, ev: Event)
    requires Origins(s) && ExitsOk(s) && NamesOk(s) && Honest(s, ev) && NextState(s, ev).log != s.log
    ensures var t := NextState(s, ev); |t.log.writes| == |s.log.writes| + 1 && |t.log.versions| == |s.log.versions| + 1 && WriteConfirmed(t, |s.log.writes|)
  {
    var t, n := NextState(s, ev), |s.log.writes|;
    var r := LogRequest(s, ev);
    assert t.log == Append(s.log, r.action, Newest(t.log));
    assert t.log.writes[n] == r.action && t.log.versions[n] == Newest(s.log);
    if r.action.Aggregate? && Newest(s.log).current.Some? {
      var names := Newest(s.log).current.value.slices;
      forall k | 0 <= k < |r.action.view| && k < |names| ensures Confirmed(t, names[k], r.action.view[k]) {
        assert names[k] in names;
        HonestIsConfirmed(s, names[k], r.action.view[k]);
        ConfirmedStays(s, ev, names[k], r.action.view[k]);
      }
    }
  }

  lemma OldWriteConfirmed(s: State, ev: Event, m: nat)
    requires s.log.versions != [] && ExitsOk(s) && AllConfirmed(s) && m < |s.log.writes|
    requires s.log.versions <= NextState(s, ev).log.versions && s.log.writes <= NextState(s, ev).log.writes
    ensures WriteConfirmed(NextState(s, ev), m)
  {
    var a, c := s.log.writes[m], s.log.versions[m];
    assert WriteConfirmed(s, m);
    if a.Aggregate? && c.current.Some? {
      forall k | 0 <= k < |a.view| && k < |c.current.value.slices| ensures Confirmed(NextState(s, ev), c.current.value.slices[k], a.view[k]) {
        ConfirmedStays(s, ev, c.current.value.slices[k], a.view[k]);
      }
    }
  }

  lemma LogGrows(s: State, ev: Event)
    requires s.log.versions != []
    ensures var t := NextState(s, ev);
            && s.log.versions <= t.log.versions && s.log.writes <= t.log.writes
            && |t.log.versions| - |s.log.versions| == |t.log.writes| - |s.log.writes| <= 1
            && (t.log == s.log || |t.log.writes| == |s.log.writes| + 1)
  {
    if NextState(s, ev).log != s.log {
      var r := LogRequest(s, ev);
    }
  }

  lemma NextKeepsConfirmed(s: State, ev: Event)
    requires Origins(s) && ExitsOk(s) && NamesOk(s) && AllConfirmed(s) && Honest(s, ev)
    ensures AllConfirmed(NextState(s, ev))
  {
    LogGrows(s, ev);
    forall m | 0 <= m < |NextState(s, ev).log.writes| ensures WriteConfirmed(NextState(s, ev), m) {
      if m < |s.log.writes| {
        OldWriteConfirmed(s, ev, m);
      } else {
        NewWriteConfirmed(s, ev);
      }
    }
  }

  ghost predicate CleanupInv(s: State) {
    Origins(s) && ExitsOk(s) && NamesOk(s) && AllConfirmed(s) && DeletionInv(s.log)
  }

  lemma NextKeepsDeletionInv(s: State, ev: Event)
    requires Origins(s) && DeletionInv(s.log)
    ensures DeletionInv(NextState(s, ev).log)
  {
    if NextState(s, ev).log != s.log {
      var r := LogRequest(s, ev);
      ServeKeepsDeletionInv(s.log, r);
    }
  }

  lemma {:induction false} ExecuteKeepsCleanupInv(c: Composition, events: seq<Event>)
    requires Initial(c) && HonestRun(c, events)
    ensures CleanupInv(Execute(c, events))
  {
    ExecuteKeepsOrigins(c, events);
    if events != [] {
      var s, ev := Execute(c, events[..|events| - 1]), events[|events| - 1];
      ExecuteKeepsCleanupInv(c, events[..|events| - 1]);
      NextKeepsExits(s, ev);
      NextKeepsNames(s, ev);
      NextKeepsConfirmed(s, ev);
      NextKeepsDeletionInv(s, ev);
    }
  }

  // ---------- The theorem ----------

  /** The resources of a slice are gone: the aggregation saw them recorded as reconciled and deleted, or left
      on purpose, or the slice left the store in order. */
  ghost predicate SliceGone(s: State, c: Composition, name: SliceName, entry: Option<ResourceSlice>) {
    match entry
    case None => LeftInOrder(s, name)
    case Some(slice) =>
      && name < |s.specs| && slice.spec == s.specs[name] && (slice.status == [] ==> slice.spec.resources == [])
      && forall i: nat :: i < |slice.status| ==> slice.status[i].reconciled && (name, i) in s.recorded && (slice.status[i].deleted || c.orphan)
  }

  /** Write `m` is an aggregation, after the deletion, of a Current with this UUID all of whose slices are
      gone. */
  ghost predicate AllSlicesGone(s: State, uuid: Uuid, m: nat) {
    && Shape(s.log) && m < |s.log.writes| && s.log.writes[m].Aggregate?
    && var c, view := s.log.versions[m], s.log.writes[m].view;
    && c.deleting && c.current.Some? && c.current.value.uuid == uuid && |view| == |c.current.value.slices|
    && forall k :: 0 <= k < |view| ==> SliceGone(s, c, c.current.value.slices[k], view[k])
  }

  lemma SightIsGone(s: State, uuid: Uuid, m: nat)
    requires AllConfirmed(s) && SawAllGone(s.log, uuid, m)
    ensures AllSlicesGone(s, uuid, m)
  {
    var c, view := s.log.versions[m], s.log.writes[m].view;
    assert WriteConfirmed(s, m);
    forall k | 0 <= k < |view| ensures SliceGone(s, c, c.current.value.slices[k], view[k]) {
      assert Confirmed(s, c.current.value.slices[k], view[k]);
    }
  }

  /** With executors, slices and garbage collection around the log: the finalizer is removed only if no
      synthesis ever succeeded and Current, if any, has no result, or if Current was aggregated after the
      deletion and every one of its slices was seen with all resources gone, or had left the store with
      all of them gone or overtaken by another attempt. */
  lemma {:induction false} NothingIsLeftBehind(c: Composition, events: seq<Event>)
    requires Initial(c) && HonestRun(c, events) && Enabled(Newest(Execute(c, events).log), RemoveFinalizer)
    ensures var s := Execute(c, events);
            var current := Newest(s.log).current;
            || (NoSuccess(s.log) && (current.Some? ==> Empty(current.value)))
            || (current.Some? && exists m :: AllSlicesGone(s, current.value.uuid, m))
  {
    ExecuteKeepsCleanupInv(c, events);
    var s := Execute(c, events);
    var current := Newest(s.log).current;
    if Seen(s.log, current) {
      var m :| SawAllGone(s.log, current.value.uuid, m);
      SightIsGone(s, current.value.uuid, m);
    }
  }
}
