/** The condition of the orphan theorem is exact: if the successful result of an outrun executor is stored,
    some continuation orphans each of its resources. The slices are collected although Current refers to
    them; then the composition is synthesized again, to nothing, and there is nothing left to diff. */
module Orphaning {
  import opened Api
  import opened Lifecycle
  import opened History
  import opened Pacing
  import opened Slicing
  import opened SliceCleanup
  import opened SynthesisRuns
  import opened CollectionSafety
  import opened NoOrphans

  // ---------- Continuations ----------

  predicate NoAttempts(more: seq<Event>) {
    forall i :: 0 <= i < |more| ==> !RecordsAttempt(more[i])
  }

  /** An admissible continuation from one state to another that records no attempt. */
  ghost predicate Leads(s: State, more: seq<Event>, t: State) {
    s.log.versions != [] && Path(s, more) == Some(t) && NoAttempts(more)
  }

  lemma LeadsOne(s: State, ev: Event)
    requires s.log.versions != [] && Admissible(s, ev) && !RecordsAttempt(ev)
    ensures Leads(s, [ev], NextState(s, ev))
  {
    assert [ev][..0] == [];
  }

  lemma {:induction false} PathOn(s: State, a: seq<Event>, t: State, b: seq<Event>)
    requires s.log.versions != [] && t.log.versions != [] && Path(s, a) == Some(t)
    ensures Path(s, a + b) == Path(t, b)
    decreases |b|
  {
    if b == [] {
      assert a + b == a;
    } else {
      var n := |b| - 1;
      PathOn(s, a, t, b[..n]);
      assert (a + b)[..|a + b| - 1] == a + b[..n] && (a + b)[|a + b| - 1] == b[n];
    }
  }

  lemma LeadsOn(s: State, a: seq<Event>, t: State, b: seq<Event>, u: State)
    requires Leads(s, a, t) && Leads(t, b, u)
    ensures Leads(s, a + b, u)
  {
    PathOn(s, a, t, b);
  }

  lemma AdmissibleOn(c: Composition, events: seq<Event>, more: seq<Event>)
    requires AdmissibleRun(c, events) && Path(Execute(c, events), more).Some?
    ensures AdmissibleRun(c, events + more)
  {
    PathIsRun(c, events);
    PathOn(Begin(c), events, Execute(c, events), more);
  }

  lemma PathFromRun(c: Composition, events: seq<Event>, more: seq<Event>)
    requires Path(Execute(c, events), more).Some?
    ensures Path(Execute(c, events), more) == Some(Execute(c, events + more))
  {
    PathIsSteps(Execute(c, events), more);
    ExecuteSteps(c, events, more);
  }

  /** An event that is neither an attempt nor a stored result is always admissible. */
  lemma Harmless(s: State, ev: Event)
    requires s.log.versions != [] && !ev.Finish? && !RecordsAttempt(ev)
    ensures Leads(s, [ev], NextState(s, ev))
  {
    LeadsOne(s, ev);
  }

  // ---------- The slices are collected ----------

  /** Both the decision to delete and the decision to release take the slice. */
  predicate Victim(s: State, name: SliceName)
    requires s.log.versions != []
  {
    && name < |s.specs|
    && Outruns(Newest(s.log), s.specs[name].generation, s.specs[name].attempt)
    && s.specs[name].uuid == Newest(s.log).current.value.uuid
  }

  lemma CollectOne(s: State, name: SliceName) returns (more: seq<Event>, t: State)
    requires s.log.versions != [] && Victim(s, name)
    ensures Leads(s, more, t) && t == s.(stored := s.stored - {name}, left := t.left, condemned := t.condemned)
  {
    var s1 := NextState(s, Condemn(name));
    assert name in s.stored && !s.stored[name].deleting ==> name in s1.condemned;
    var s2 := NextState(s1, Delete(name));
    assert name in s.stored ==> s2.stored[name].deleting;
    t := NextState(s2, Release(name));
    Harmless(s, Condemn(name));
    Harmless(s1, Delete(name));
    LeadsOn(s, [Condemn(name)], s1, [Delete(name)], s2);
    Harmless(s2, Release(name));
    more := [Condemn(name)] + [Delete(name)] + [Release(name)];
    LeadsOn(s, [Condemn(name)] + [Delete(name)], s2, [Release(name)], t);
  }

  lemma {:induction false} CollectAll(s: State, names: seq<SliceName>) returns (more: seq<Event>, t: State)
    requires s.log.versions != [] && forall i :: 0 <= i < |names| ==> Victim(s, names[i])
    ensures Leads(s, more, t) && t == s.(stored := t.stored, left := t.left, condemned := t.condemned)
    ensures forall i :: 0 <= i < |names| ==> names[i] !in t.stored
  {
    if names == [] {
      more, t := [], s;
    } else {
      var n := |names| - 1;
      var a, s1 := CollectAll(s, names[..n]);
      assert Victim(s1, names[n]) by { assert Victim(s, names[n]); }
      var b, s2 := CollectOne(s1, names[n]);
      LeadsOn(s, a, s1, b, s2);
      forall i | 0 <= i < |names| ensures names[i] !in s2.stored {
        assert i < n ==> names[..n][i] !in s1.stored;
      }
      more, t := a + b, s2;
    }
  }

  // ---------- The composition is synthesized again ----------

  lemma WriteNow(s: State, a: Action, d: Composition) returns (more: seq<Event>, t: State)
    requires s.log.versions != [] && Next(Newest(s.log), a, s.log.issued + 1) == Some(d) && !a.Commit? && !a.RecordAttempt?
    ensures Leads(s, more, t) && t == s.(log := Append(s.log, a, d))
  {
    var ev := Write(Request(|s.log.versions| - 1, a));
    Harmless(s, ev);
    more, t := [ev], NextState(s, ev);
  }

  /** A resynthesis is requested, if it is not yet. */
  lemma AskAgain(s: State) returns (more: seq<Event>, t: State)
    requires s.log.versions != [] && !Newest(s.log).deleting
    requires Newest(s.log).current.Some? && Newest(s.log).current.value.synthesized.Some?
    ensures Leads(s, more, t) && t == s.(log := t.log) && t.log.versions != [] && !Newest(t.log).deleting
    ensures Newest(t.log).pending.Some? && Newest(t.log).current == Newest(s.log).current
  {
    var c := Newest(s.log);
    var d := c.(ignoreSideEffects := false, orphan := false);
    var a, s1 := WriteNow(s, EditAnnotations(false, false), d);
    if d.pending.Some? {
      more, t := a, s1;
    } else {
      var b, s2 := WriteNow(s1, SetPending(0), d.(pending := Some(0)));
      LeadsOn(s, a, s1, b, s2);
      more, t := a + b, s2;
    }
  }

  /** The rollout controller's write. */
  function Restarted(c: Composition): Composition {
    c.(previous := c.current, current := Some(FreshSynthesis(c.generation, 0).(deferred := true)), pending := None)
  }

  lemma SwapNow(s: State) returns (more: seq<Event>, t: State)
    requires s.log.versions != [] && Newest(s.log).pending.Some?
    requires Newest(s.log).current.Some? && Succeeded(Newest(s.log).current.value)
    ensures Leads(s, more, t) && t == s.(log := t.log) && t.log.versions != [] && Newest(t.log) == Restarted(Newest(s.log))
  {
    more, t := WriteNow(s, RolloutSwap(0), Restarted(Newest(s.log)));
  }

  lemma DispatchNow(s: State) returns (more: seq<Event>, t: State)
    requires s.log.versions != [] && AwaitsDispatch(Newest(s.log))
    ensures Leads(s, more, t) && t == s.(log := t.log) && t.log.versions != []
    ensures Newest(t.log) == Dispatched(Newest(s.log), s.log.issued + 1)
  {
    more, t := WriteNow(s, Action.Dispatch, Dispatched(Newest(s.log), s.log.issued + 1));
  }

  lemma Resynthesize(s: State) returns (more: seq<Event>, t: State)
    requires s.log.versions != [] && !Newest(s.log).deleting
    requires Newest(s.log).current.Some? && Succeeded(Newest(s.log).current.value)
    ensures Leads(s, more, t) && t == s.(log := t.log) && t.log.versions != []
    ensures Newest(t.log).previous == Newest(s.log).current && Untried(Newest(t.log))
  {
    var a, s1 := AskAgain(s);
    var b, s2 := SwapNow(s1);
    LeadsOn(s, a, s1, b, s2);
    var e, s3 := DispatchNow(s2);
    LeadsOn(s, a + b, s2, e, s3);
    more, t := a + b + e, s3;
  }

  // ---------- Its executor finds nothing and stores nothing ----------

  /** The last executor has read the newest version and finished `k` lookups, all in vain. */
  ghost predicate Searching(s: State, k: nat) {
    && s.log.versions != [] && s.executors != []
    && var v, x := Newest(s.log), s.executors[|s.executors| - 1];
    && Active(v) && v.current.value.attempts == 0
    && x.env == Env(v.current.value.uuid, 1) && x.read == Some(|s.log.versions| - 1) && x.plan.None? && x.refs == []
    && |x.fetched| == k && k <= |PreviousSlices(v)|
    && forall i :: 0 <= i < k ==> x.fetched[i].None?
  }

  lemma StartSearch(s: State) returns (more: seq<Event>, t: State)
    requires s.log.versions != [] && Active(Newest(s.log)) && !Newest(s.log).deleting && Newest(s.log).current.value.attempts == 0
    ensures Leads(s, more, t) && t == s.(executors := t.executors) && Searching(t, 0)
  {
    var n := |s.log.versions| - 1;
    var s1 := NextState(s, CreatePod(n));
    Harmless(s, CreatePod(n));
    var read := Read(|s.executors|, n);
    Harmless(s1, read);
    LeadsOn(s, [CreatePod(n)], s1, [read], NextState(s1, read));
    more, t := [CreatePod(n)] + [read], NextState(s1, read);
  }

  lemma FetchNothing(s: State, k: nat)
    requires Searching(s, k) && k < |PreviousSlices(Newest(s.log))| && PreviousSlices(Newest(s.log))[k] !in s.stored
    ensures var t := NextState(s, Fetch(|s.executors| - 1)); t == s.(executors := t.executors) && Searching(t, k + 1)
  {
    var x := s.executors[|s.executors| - 1];
    assert s.log.versions[x.read.value] == Newest(s.log);
    assert Lookup(s, PreviousSlices(Newest(s.log))[k]) == None;
  }

  lemma {:induction false} FetchAll(s: State, k: nat) returns (more: seq<Event>, t: State)
    requires Searching(s, 0) && k <= |PreviousSlices(Newest(s.log))| && forall name <- PreviousSlices(Newest(s.log)) :: name !in s.stored
    ensures Leads(s, more, t) && t == s.(executors := t.executors) && Searching(t, k)
  {
    if k == 0 {
      more, t := [], s;
    } else {
      var a, s1 := FetchAll(s, k - 1);
      var ev := Fetch(|s1.executors| - 1);
      assert PreviousSlices(Newest(s.log))[k - 1] in PreviousSlices(Newest(s.log));
      FetchNothing(s1, k - 1);
      Harmless(s1, ev);
      LeadsOn(s, a, s1, [ev], NextState(s1, ev));
      more, t := a + [ev], NextState(s1, ev);
    }
  }

  lemma {:induction false} NothingIsPresent(fetched: seq<Option<ResourceSlice>>)
    requires forall i :: 0 <= i < |fetched| ==> fetched[i].None?
    ensures Present(fetched) == []
  {
    if fetched != [] {
      NothingIsPresent(fetched[..|fetched| - 1]);
    }
  }

  lemma NothingIsSliced(c: Composition)
    ensures AllAligned([]) && Sliced(c, [], [], MAX_SLICE_BYTES) == []
  {
    assert Manifests([], []) == [];
    assert Pack([], MAX_SLICE_BYTES) == [];
  }

  /** Nothing is output, so nothing is planned. */
  lemma PlanEmpty(s: State, e: nat, x: Executor, v: Composition)
    requires Reading(s, e) && s.executors[e] == x && s.log.versions[x.read.value] == v
    requires |x.fetched| == |PreviousSlices(v)| && Present(x.fetched) == []
    ensures AfterSynthesize(s, e, []) == s.(executors := s.executors[e := x.(outputs := [], plan := Some([]))])
  {
    NothingIsSliced(v);
    assert CanSlice(x, v, []);
  }

  lemma PlanNothing(s: State)
    requires s.log.versions != [] && Searching(s, |PreviousSlices(Newest(s.log))|)
    ensures var x, t := s.executors[|s.executors| - 1], NextState(s, Synthesize(|s.executors| - 1, []));
            t == s.(executors := s.executors[|s.executors| - 1 := x.(outputs := [], plan := Some([]))])
  {
    var x := s.executors[|s.executors| - 1];
    NothingIsPresent(x.fetched);
    PlanEmpty(s, |s.executors| - 1, x, Newest(s.log));
  }

  /** The last executor is ready to store an empty result. */
  ghost predicate EmptyHanded(s: State) {
    && s.log.versions != [] && s.executors != []
    && var v, x := Newest(s.log), s.executors[|s.executors| - 1];
    && Active(v) && v.current.value.attempts == 0 && x.env == Env(v.current.value.uuid, 1)
    && x.read == Some(|s.log.versions| - 1) && x.plan == Some([]) && x.refs == [] && x.outputs == []
  }

  lemma StoreNothing(s: State) returns (more: seq<Event>, t: State)
    requires EmptyHanded(s)
    ensures Leads(s, more, t) && t == s.(log := t.log, done := s.done + [s.executors[|s.executors| - 1]])
    ensures Newest(t.log).deleting == Newest(s.log).deleting
  {
    var v, x, n := Newest(s.log), s.executors[|s.executors| - 1], |s.log.versions| - 1;
    var ev := Finish(|s.executors| - 1, n, [], [], 0, 0);
    var r, d := CommitRequest(x, ev), Committed(v, Output([], [], [], 0), 0);
    assert Next(v, r.action, s.log.issued + 1) == Some(d);
    assert Outcome(s.log, r) == Some(d);
    assert !Outrun(s, x);
    LeadsOne(s, ev);
    more, t := [ev], NextState(s, ev);
  }

  /** A version that awaits its first attempt. */
  predicate Untried(c: Composition) {
    Active(c) && !c.deleting && c.current.value.attempts == 0
  }

  lemma SearchAll(s: State) returns (more: seq<Event>, t: State)
    requires s.log.versions != [] && Untried(Newest(s.log)) && forall name <- PreviousSlices(Newest(s.log)) :: name !in s.stored
    ensures Leads(s, more, t) && t == s.(executors := t.executors) && Searching(t, |PreviousSlices(Newest(s.log))|)
  {
    var a, s1 := StartSearch(s);
    var b, s2 := FetchAll(s1, |PreviousSlices(Newest(s1.log))|);
    LeadsOn(s, a, s1, b, s2);
    more, t := a + b, s2;
  }

  lemma PlanAll(s: State) returns (more: seq<Event>, t: State)
    requires s.log.versions != [] && Searching(s, |PreviousSlices(Newest(s.log))|)
    ensures Leads(s, more, t) && t == s.(executors := t.executors) && EmptyHanded(t)
  {
    PlanNothing(s);
    var ev := Synthesize(|s.executors| - 1, []);
    Harmless(s, ev);
    more, t := [ev], NextState(s, ev);
  }

  lemma RepeatInVain(s: State) returns (more: seq<Event>, t: State)
    requires s.log.versions != [] && Untried(Newest(s.log)) && forall name <- PreviousSlices(Newest(s.log)) :: name !in s.stored
    ensures Leads(s, more, t) && t.specs == s.specs && t.log.versions != [] && !Newest(t.log).deleting
    ensures |t.done| == |s.done| + 1 && s.done <= t.done && t.done[|s.done|].refs == [] && t.done[|s.done|].outputs == []
  {
    var a, s1 := SearchAll(s);
    var b, s2 := PlanAll(s1);
    LeadsOn(s, a, s1, b, s2);
    var e, s3 := StoreNothing(s2);
    LeadsOn(s, a + b, s2, e, s3);
    more, t := a + b + e, s3;
  }

  // ---------- The theorem ----------

  /** After the outrun result is stored, its slices are victims. */
  lemma StoredAreVictims(s: State, ev: Event, name: SliceName)
    requires Origins(s) && StoresSuccess(s, ev) && Outrun(s, s.executors[ev.e]) && name in s.executors[ev.e].refs
    ensures Victim(NextState(s, ev), name)
  {
    var x := s.executors[ev.e];
    assert x in s.executors;
    RefLabels(s, x, name);
    HolderIsAuthor(s, x, name);
  }

  lemma StoredIsCurrent(s: State, ev: Event)
    requires Origins(s) && StoresSuccess(s, ev)
    ensures var x, t := s.executors[ev.e], NextState(s, ev);
            && t.specs == s.specs && t.done == s.done + [x] && Newest(t.log).deleting == Newest(s.log).deleting
            && Newest(t.log).current.Some? && Succeeded(Newest(t.log).current.value) && Newest(t.log).current.value.slices == x.refs
  {
    assert Good(Newest(s.log), s.log.issued);
    var d := Outcome(s.log, CommitRequest(s.executors[ev.e], ev)).value;
    assert d.current.value.results == ev.results;
  }

  /** Nothing accounts for a live resource that the last synthesis does not hold. */
  lemma Unaccounted(s: State, j: nat, o: Object)
    requires s.log.versions != [] && |s.done| == j + 2 && !o.isPatch && HasManifest(s, s.done[j], Encode(o))
    requires s.done[j + 1].refs == [] && s.done[j + 1].outputs == []
    ensures HoldsResource(s, s.done[j], o.ref) && !AccountedFor(s, j, o.ref)
  {
    var x := s.done[j];
    ManifestHolds(s, x, Encode(o));
    var name, i: nat :| name in x.refs && name < |s.specs| && i < |s.specs[name].resources| && s.specs[name].resources[i] == Encode(o);
    assert At(s, name, i, o.ref);
    assert !DeletionRecorded(s, x, o.ref);
    assert !HoldsResource(s, s.done[j + 1], o.ref);
    forall m | j <= m ensures !LeftProperly(s, m, o.ref) {
      if m == j {
        assert !TakenOverByPatch(s.done[j + 1], o.ref);
      }
    }
  }

  lemma OutputIsStored(s: State, x: Executor, o: Object)
    requires Origins(s) && x in s.executors && Planned(x) && o in x.outputs
    ensures HasManifest(s, x, Encode(o))
  {
    assert ExecutorOk(s, x);
    var all := Manifests(x.outputs, Present(x.fetched));
    var k :| 0 <= k < |x.outputs| && x.outputs[k] == o;
    assert all[k] == Encode(o) && all[k] in all;
    ManifestIsStored(s, x, Encode(o));
  }

  /** From the state in which the outrun result is stored. */
  lemma LoseEverything(s: State, ev: Event, o: Object) returns (more: seq<Event>, t: State)
    requires Origins(s) && StoresSuccess(s, ev) && Outrun(s, s.executors[ev.e]) && !Newest(s.log).deleting
    requires o in s.executors[ev.e].outputs && !o.isPatch
    ensures Leads(NextState(s, ev), more, t) && !Newest(t.log).deleting
    ensures |s.done| < |t.done| && HoldsResource(t, t.done[|s.done|], o.ref) && !AccountedFor(t, |s.done|, o.ref)
  {
    var x, s0 := s.executors[ev.e], NextState(s, ev);
    assert x in s.executors;
    StoredIsCurrent(s, ev);
    OutputIsStored(s, x, o);
    forall i | 0 <= i < |x.refs| ensures Victim(s0, x.refs[i]) { StoredAreVictims(s, ev, x.refs[i]); }
    var a, s1 := CollectAll(s0, x.refs);
    var b, s2 := Resynthesize(s1);
    LeadsOn(s0, a, s1, b, s2);
    var e, s3 := RepeatInVain(s2);
    LeadsOn(s0, a + b, s2, e, s3);
    more, t := a + b + e, s3;
    assert t.done[|s.done|] == x && HasManifest(t, x, Encode(o));
    Unaccounted(t, |s.done|, o);
  }

  /** Every admissible continuation accounts for the resource of the `j`-th stored synthesis. */
  ghost predicate AlwaysAccounted(c: Composition, events: seq<Event>, j: nat, ref: ResourceRef) {
    forall more :: Path(Execute(c, events), more).Some? ==> Accounts(Path(Execute(c, events), more).value, j, ref)
  }

  ghost predicate Accounts(t: State, j: nat, ref: ResourceRef)
    requires t.log.versions != []
  {
    Newest(t.log).deleting || (j < |t.done| && HoldsResource(t, t.done[j], ref) ==> AccountedFor(t, j, ref))
  }

  lemma NotOutrunAccounts(c: Composition, events: seq<Event>, more: seq<Event>, j: nat, ref: ResourceRef)
    requires Initial(c) && AdmissibleRun(c, events) && Path(Execute(c, events), more).Some?
    ensures Accounts(Path(Execute(c, events), more).value, j, ref)
  {
    AdmissibleOn(c, events, more);
    PathFromRun(c, events, more);
    var t := Execute(c, events + more);
    if !Newest(t.log).deleting && j < |t.done| && HoldsResource(t, t.done[j], ref) {
      NothingIsOrphaned(c, events + more, j, ref);
    }
  }

  /** After an admissible run, storing a successful result keeps its resources accounted for, in every
      admissible continuation, if and only if its executor is not outrun. */
  lemma {:induction false} AccountedExactly(c: Composition, events: seq<Event>, ev: Event, o: Object)
    requires Initial(c) && AdmissibleRun(c, events) && StoresSuccess(Execute(c, events), ev) && !Newest(Execute(c, events).log).deleting
    requires o in Execute(c, events).executors[ev.e].outputs && !o.isPatch
    ensures AlwaysAccounted(c, events + [ev], |Execute(c, events).done|, o.ref) <==> !Outrun(Execute(c, events), Execute(c, events).executors[ev.e])
  {
    var s := Execute(c, events);
    ExecuteKeepsOrigins(c, events);
    ExecuteSnoc(c, events, ev);
    if Outrun(s, s.executors[ev.e]) {
      var more, t := LoseEverything(s, ev, o);
      assert Path(Execute(c, events + [ev]), more) == Some(t);
    } else {
      AdmissibleSnoc(c, events, ev);
      forall more | Path(Execute(c, events + [ev]), more).Some?
        ensures Accounts(Path(Execute(c, events + [ev]), more).value, |s.done|, o.ref)
      {
        NotOutrunAccounts(c, events + [ev], more, |s.done|, o.ref);
      }
    }
  }
}
