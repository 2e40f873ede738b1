/** No resource is ever orphaned: over whole runs of a composition that is not being deleted, a
    resource disappears from the newest successful synthesis only after its deletion was recorded, or
    because a Patch took it over. */
module NoOrphans {
  import opened Api
  import opened Lifecycle
  import opened History
  import opened Pacing
  import opened Slicing
  import opened SliceCleanup
  import opened SynthesisRuns
  import opened CollectionSafety

  // ---------- The runs considered ----------

  /** Slices labelled by this version are chosen for deletion although their synthesis is Current. */
  predicate Outruns(c: Composition, generation: nat, attempt: nat) {
    c.current.Some? && generation <= c.current.value.observedGeneration && 0 < attempt < c.current.value.attempts
  }

  /** The executor's label is out of date: another attempt was recorded after it read the composition. */
  predicate Outrun(s: State, x: Executor)
    requires s.log.versions != []
  {
    && x.read.Some? && x.read.value < |s.log.versions| && s.log.versions[x.read.value].current.Some?
    && Outruns(Newest(s.log), s.log.versions[x.read.value].generation, s.log.versions[x.read.value].current.value.attempts)
  }

  /** The event stores the successful result of an executor. */
  predicate StoresSuccess(s: State, ev: Event)
    requires s.log.versions != []
  {
    && ev.Finish? && ev.e < |s.executors| && Planned(s.executors[ev.e])
    && Outcome(s.log, CommitRequest(s.executors[ev.e], ev)).Some? && !HasError(ev.results)
  }

  /** No accepted attempt lowers the counter, and no successful result of an outrun executor is stored. */
  predicate Admissible(s: State, ev: Event)
    requires s.log.versions != []
  {
    && (ev.Write? ==> NotLowered(s.log, ev.request))
    && (StoresSuccess(s, ev) ==> !Outrun(s, s.executors[ev.e]))
  }

  function Admit(s: State, ev: Event): (t: Option<State>)
    requires s.log.versions != []
    ensures t.Some? ==> t.value.log.versions != []
  {
    if Admissible(s, ev) then Some(NextState(s, ev)) else None
  }

  /** Where admissible events lead. */
  function Path(s: State, events: seq<Event>): (t: Option<State>)
    requires s.log.versions != []
    ensures t.Some? ==> t.value.log.versions != []
  {
    if events == [] then Some(s)
    else
      match Path(s, events[..|events| - 1])
      case None => None
      case Some(m) => Admit(m, events[|events| - 1])
  }

  predicate AdmissibleRun(c: Composition, events: seq<Event>) {
    Path(Begin(c), events).Some?
  }

  lemma AdmitIsNext(s: State, ev: Event)
    requires s.log.versions != [] && Admit(s, ev).Some?
    ensures Admit(s, ev) == Some(NextState(s, ev)) && Admissible(s, ev)
  {
  }

  lemma {:induction false} PathIsSteps(s: State, events: seq<Event>)
    requires s.log.versions != [] && Path(s, events).Some?
    ensures Path(s, events) == Some(Steps(s, events))
  {
    if events != [] {
      var n := |events| - 1;
      PathIsSteps(s, events[..n]);
      AdmitIsNext(Steps(s, events[..n]), events[n]);
    }
  }

  lemma PathIsRun(c: Composition, events: seq<Event>)
    requires AdmissibleRun(c, events)
    ensures Path(Begin(c), events) == Some(Execute(c, events))
  {
    PathIsSteps(Begin(c), events);
    ExecuteSteps(c, [], events);
    assert [] + events == events;
  }

  lemma AdmissibleInit(c: Composition, events: seq<Event>)
    requires AdmissibleRun(c, events) && events != []
    ensures AdmissibleRun(c, events[..|events| - 1])
    ensures Admissible(Execute(c, events[..|events| - 1]), events[|events| - 1])
  {
    var n := |events| - 1;
    PathIsRun(c, events[..n]);
    AdmitIsNext(Execute(c, events[..n]), events[n]);
  }

  lemma AdmissibleSnoc(c: Composition, events: seq<Event>, ev: Event)
    requires AdmissibleRun(c, events) && Admissible(Execute(c, events), ev)
    ensures AdmissibleRun(c, events + [ev])
  {
    PathIsRun(c, events);
    assert (events + [ev])[..|events|] == events;
  }

  // ---------- Slices that are needed exist ----------

  predicate Kept(s: State, name: SliceName) {
    name in s.stored && !s.stored[name].deleting && name !in s.condemned
  }

  predicate CanCommit(s: State, env: Env)
    requires s.log.versions != []
  {
    !SkipSynthesis(Newest(s.log), env)
  }

  /** A successful Current refers to the slice. */
  predicate InSuccess(c: Composition, name: SliceName) {
    c.current.Some? && Succeeded(c.current.value) && References(c.current, name)
  }

  /** Previous refers to the slice, or will when the successful Current is swapped out. */
  predicate Lasting(c: Composition, name: SliceName) {
    References(c.previous, name) || InSuccess(c, name)
  }

  /** A lookup that found the slice, undeleted, with states that are on record. */
  ghost predicate Found(s: State, name: SliceName, slice: Option<ResourceSlice>) {
    && slice.Some? && name < |s.specs| && slice.value.spec == s.specs[name] && !slice.value.deleting
    && Aligned(slice.value)
    && forall i: nat :: i < |slice.value.status| && slice.value.status[i].reconciled ==> (name, i) in s.recorded
  }

  ghost predicate FoundAll(s: State, x: Executor) {
    x.read.Some? ==>
      && x.read.value < |s.log.versions|
      && var names := PreviousSlices(s.log.versions[x.read.value]);
         |x.fetched| <= |names| && forall k :: 0 <= k < |x.fetched| ==> Found(s, names[k], x.fetched[k])
  }

  ghost predicate StoredOk(s: State, name: SliceName)
    requires name in s.stored
  {
    && name < |s.specs|
    && Aligned(ResourceSlice(s.specs[name], s.stored[name].deleting, s.stored[name].status))
    && forall i: nat :: i < |s.stored[name].status| && s.stored[name].status[i].reconciled ==> (name, i) in s.recorded
  }

  /** The slice is there, and if it is Current's, its label does not make it a victim. */
  ghost predicate SafeRef(s: State, name: SliceName)
    requires s.log.versions != []
  {
    && Kept(s, name) && name < |s.specs|
    && (InSuccess(Newest(s.log), name) ==> !Outruns(Newest(s.log), s.specs[name].generation, s.specs[name].attempt))
  }

  ghost predicate LastingKept(s: State)
    requires s.log.versions != []
  {
    forall name :: Lasting(Newest(s.log), name) ==> SafeRef(s, name)
  }

  ghost predicate ExecutorSafe(s: State, x: Executor)
    requires s.log.versions != []
  {
    CanCommit(s, x.env) ==> FoundAll(s, x) && (!Outrun(s, x) ==> forall name <- x.refs :: Kept(s, name))
  }

  ghost predicate Safe(s: State) {
    && Origins(s)
    && (forall name <- s.stored :: StoredOk(s, name))
    && (forall name <- s.condemned :: name < |s.specs|)
    && (!Newest(s.log).deleting ==> LastingKept(s) && forall x <- s.executors :: ExecutorSafe(s, x))
  }

  /** While the executor's synthesis is in progress, Previous is what the executor read. */
  lemma PreviousAsRead(s: State, x: Executor)
    requires Origins(s) && ExecutorOk(s, x) && x.read.Some? && CanCommit(s, x.env)
    ensures Newest(s.log).previous == s.log.versions[x.read.value].previous
    ensures Newest(s.log).current.value.observedGeneration == s.log.versions[x.read.value].current.value.observedGeneration
  {
    var v, w := s.log.versions[x.read.value], Newest(s.log);
    assert Continues(v, w);
    assert Holds(v, v.current.value) && Holds(w, w.current.value);
    assert Carries(v, w, v.current.value, w.current.value);
  }

  /** The labels of an executor's slices. */
  lemma RefLabels(s: State, x: Executor, name: SliceName)
    requires Origins(s) && x in s.executors && name in x.refs
    ensures name < |s.specs| && x.read.Some? && x.read.value < |s.log.versions| && s.log.versions[x.read.value].current.Some?
    ensures s.specs[name].generation == s.log.versions[x.read.value].generation
    ensures s.specs[name].attempt == s.log.versions[x.read.value].current.value.attempts
  {
    HolderIsAuthor(s, x, name);
    assert ExecutorOk(s, x);
    var k :| 0 <= k < |x.refs| && x.refs[k] == name;
    assert RefOk(s, x, k);
    PlanLabels(s, x, k);
  }

  /** A decision condemns no slice of an executor that may still commit and is not outrun. */
  lemma CondemnSparesPending(s: State, x: Executor, name: SliceName)
    requires Safe(s) && x in s.executors && CanCommit(s, x.env) && !Outrun(s, x) && name in x.refs && !Newest(s.log).deleting
    ensures name < |s.specs| && !ShouldDeleteSlice(Newest(s.log), name, s.specs[name])
  {
    RefLabels(s, x, name);
    assert ExecutorOk(s, x);
    PreviousAsRead(s, x);
    assert Good(s.log.versions[x.read.value], s.log.issued);
  }

  lemma CondemnSparesLasting(s: State, name: SliceName)
    requires Safe(s) && Lasting(Newest(s.log), name) && !Newest(s.log).deleting
    ensures name < |s.specs| && !ShouldDeleteSlice(Newest(s.log), name, s.specs[name])
  {
    assert Good(Newest(s.log), s.log.issued);
    assert SafeRef(s, name);
  }

  lemma FoundExtends(s: State, t: State, name: SliceName, slice: Option<ResourceSlice>)
    requires Extends(s, t) && Found(s, name, slice)
    ensures Found(t, name, slice)
  {
  }

  lemma FoundAllExtends(s: State, t: State, x: Executor)
    requires Extends(s, t) && FoundAll(s, x)
    ensures FoundAll(t, x)
  {
    if x.read.Some? {
      var names := PreviousSlices(s.log.versions[x.read.value]);
      forall k | 0 <= k < |x.fetched| ensures Found(t, names[k], x.fetched[k]) {
        FoundExtends(s, t, names[k], x.fetched[k]);
      }
    }
  }

  // ---------- Steps of the log ----------

  /** What becomes lasting has just been committed, and a lasting slice of Current keeps its label's
      relation to the counter. */
  lemma NewLasting(c: Composition, a: Action, d: Composition, issued: Uuid, name: SliceName)
    requires Good(c, issued) && Rewrite(c, a, issued + 1) == Some(d) && !d.deleting && Lasting(d, name)
    ensures Lasting(c, name) || (a.Commit? && !HasError(a.output.results) && name in a.output.slices)
    ensures InSuccess(d, name) ==>
              && SameCounter(c, d)
              && (InSuccess(c, name) || (a.Commit? && !HasError(a.output.results) && name in a.output.slices))
  {
    if a.Commit? {
      assert d.current.value.results == a.output.results;
    }
  }

  predicate SameCounter(c: Composition, d: Composition) {
    && c.current.Some? && d.current.Some?
    && c.current.value.observedGeneration == d.current.value.observedGeneration && c.current.value.attempts == d.current.value.attempts
  }

  /** While a synthesis stays in progress its generation is fixed and its counter does not fall. */
  lemma CounterRises(log: Log, r: Request, d: Composition)
    requires Inv(log) && NotLowered(log, r) && Outcome(log, r) == Some(d) && SameWork(Newest(log), d)
    ensures d.current.value.observedGeneration == Newest(log).current.value.observedGeneration
    ensures d.current.value.attempts >= Newest(log).current.value.attempts
  {
    var c := Newest(log);
    assert Good(c, log.issued);
    NextRewrites(c, r.action, log.issued + 1);
    StepAttempts(c, r.action, d, log.issued);
    StepFollows(c, r.action, d, log.issued);
    assert Holds(d, d.current.value);
  }

  /** Whoever is outrun stays outrun while it can commit. */
  lemma OutrunStays(s: State, t: State, r: Request, x: Executor)
    requires Origins(s) && Extends(s, t) && NotLowered(s.log, r) && t.log == Serve(s.log, r)
    requires x.env.uuid != NO_UUID && CanCommit(s, x.env) && CanCommit(t, x.env) && Outrun(s, x)
    ensures Outrun(t, x)
  {
    if Outcome(s.log, r).Some? {
      assert Newest(t.log) == Outcome(s.log, r).value;
      CounterRises(s.log, r, Newest(t.log));
    }
  }

  /** Whoever can commit after a step of the log could before, and what it needs is still there. */
  lemma LogStepKeepsExecutor(s: State, r: Request, t: State, x: Executor)
    requires Origins(s) && Extends(s, t) && NotLowered(s.log, r) && t.log == Serve(s.log, r)
    requires t.stored == s.stored && t.condemned == s.condemned && ExecutorOk(s, x) && ExecutorSafe(s, x)
    ensures ExecutorSafe(t, x)
  {
    if CanCommit(t, x.env) {
      if !CanCommit(s, x.env) {
        HopelessForever(s.log, r, x.env);
      }
      FoundAllExtends(s, t, x);
      if Outrun(s, x) {
        OutrunStays(s, t, r, x);
      }
    }
  }

  /** What an accepted, successful commit has to bring along. */
  ghost predicate CommitOk(s: State, r: Request)
    requires s.log.versions != []
  {
    r.action.Commit? && Outcome(s.log, r).Some? && !HasError(r.action.output.results) && !Newest(s.log).deleting ==>
      forall name <- r.action.output.slices ::
        Kept(s, name) && name < |s.specs| && !Outruns(Newest(s.log), s.specs[name].generation, s.specs[name].attempt)
  }

  lemma LogStepKeepsLasting(s: State, r: Request, t: State, name: SliceName)
    requires Origins(s) && LastingKept(s) && t.log == Serve(s.log, r) && CommitOk(s, r)
    requires t.stored == s.stored && t.condemned == s.condemned && t.specs == s.specs
    requires !Newest(s.log).deleting && !Newest(t.log).deleting && Lasting(Newest(t.log), name)
    ensures SafeRef(t, name)
  {
    match Outcome(s.log, r)
    case None => assert SafeRef(s, name);
    case Some(d) =>
      assert Newest(t.log) == d && Good(Newest(s.log), s.log.issued);
      NextRewrites(Newest(s.log), r.action, s.log.issued + 1);
      NewLasting(Newest(s.log), r.action, d, s.log.issued, name);
      assert Lasting(Newest(s.log), name) ==> SafeRef(s, name);
  }

  lemma LogStepKeepsSafe(s: State, r: Request, t: State)
    requires Safe(s) && Origins(t) && Extends(s, t) && NotLowered(s.log, r) && t.log == Serve(s.log, r)
    requires t.(log := s.log, done := s.done) == s && CommitOk(s, r)
    ensures Safe(t)
  {
    forall name <- t.stored ensures StoredOk(t, name) { assert StoredOk(s, name); }
    if !Newest(t.log).deleting {
      StillAlive(s, t);
      forall name | Lasting(Newest(t.log), name) ensures SafeRef(t, name) { LogStepKeepsLasting(s, r, t, name); }
      forall x <- t.executors ensures ExecutorSafe(t, x) {
        assert ExecutorOk(s, x) && ExecutorSafe(s, x);
        LogStepKeepsExecutor(s, r, t, x);
      }
    }
  }

  /** A deletion is never taken back. */
  lemma StillAlive(s: State, t: State)
    requires Origins(t) && Extends(s, t) && s.log.versions != [] && !Newest(t.log).deleting
    ensures !Newest(s.log).deleting
  {
    var n := |s.log.versions| - 1;
    assert t.log.versions[n] == Newest(s.log);
    assert Continues(t.log.versions[n], Newest(t.log));
  }

  lemma WriteKeepsSafe(s: State, ev: Event)
    requires Safe(s) && ev.Write? && Admissible(s, ev) && Origins(NextState(s, ev))
    ensures Safe(NextState(s, ev))
  {
    NextExtends(s, ev);
    if !ev.request.action.Commit? {
      LogStepKeepsSafe(s, ev.request, NextState(s, ev));
    }
  }

  /** A successful result that is stored is that of an executor that is not outrun. */
  lemma FinishBrings(s: State, ev: Event)
    requires Safe(s) && ev.Finish? && Admissible(s, ev) && ev.e < |s.executors| && Planned(s.executors[ev.e])
    ensures CommitOk(s, CommitRequest(s.executors[ev.e], ev))
  {
    var x := s.executors[ev.e];
    assert x in s.executors;
    if StoresSuccess(s, ev) && !Newest(s.log).deleting {
      assert ExecutorSafe(s, x);
      forall name <- x.refs ensures name < |s.specs| && !Outruns(Newest(s.log), s.specs[name].generation, s.specs[name].attempt) {
        RefLabels(s, x, name);
      }
    }
  }

  lemma FinishKeepsSafe(s: State, ev: Event)
    requires Safe(s) && ev.Finish? && Admissible(s, ev) && Origins(NextState(s, ev))
    ensures Safe(NextState(s, ev))
  {
    NextExtends(s, ev);
    if NextState(s, ev) != s {
      FinishBrings(s, ev);
      LogStepKeepsSafe(s, CommitRequest(s.executors[ev.e], ev), NextState(s, ev));
    }
  }

  // ---------- Steps of the executors ----------

  /** Steps of one executor that leave the log, the store and the decisions alone. */
  lemma ExecutorStepKeepsSafe(s: State, t: State)
    requires Safe(s) && Origins(t) && t.(executors := s.executors) == s
    requires forall y <- t.executors :: y in s.executors || (!Newest(t.log).deleting ==> ExecutorSafe(t, y))
    ensures Safe(t)
  {
    forall name <- t.stored ensures StoredOk(t, name) { assert StoredOk(s, name); }
    if !Newest(t.log).deleting {
      forall x <- t.executors ensures ExecutorSafe(t, x) {
        if x in s.executors {
          assert ExecutorSafe(s, x);
          SameReader(s, t, x, x);
        }
      }
      forall name | Lasting(Newest(t.log), name) ensures SafeRef(t, name) { assert SafeRef(s, name); }
    }
  }

  lemma CreatePodKeepsSafe(s: State, base: nat)
    requires Safe(s) && Origins(AfterCreatePod(s, base))
    ensures Safe(AfterCreatePod(s, base))
  {
    ExecutorStepKeepsSafe(s, AfterCreatePod(s, base));
  }

  lemma ReadKeepsSafe(s: State, e: nat, version: nat)
    requires Safe(s) && Origins(AfterRead(s, e, version))
    ensures Safe(AfterRead(s, e, version))
  {
    ExecutorStepKeepsSafe(s, AfterRead(s, e, version));
  }

  /** What an executor prepares does not matter here, only what it read, looked up and created. */
  lemma SameReader(s: State, t: State, x: Executor, y: Executor)
    requires s.log.versions != [] && t.(executors := s.executors) == s && ExecutorSafe(s, x)
    requires y == x.(outputs := y.outputs, plan := y.plan)
    ensures ExecutorSafe(t, y)
  {
  }

  lemma SynthesizeKeepsSafe(s: State, e: nat, outputs: seq<Object>)
    requires Safe(s) && Origins(AfterSynthesize(s, e, outputs))
    ensures Safe(AfterSynthesize(s, e, outputs))
  {
    var t := AfterSynthesize(s, e, outputs);
    if t != s {
      if !Newest(s.log).deleting {
        assert s.executors[e] in s.executors;
        SameReader(s, t, s.executors[e], t.executors[e]);
      }
      ExecutorStepKeepsSafe(s, t);
    }
  }

  /** A slice of Previous is found. */
  lemma LastingIsFound(s: State, name: SliceName)
    requires Safe(s) && References(Newest(s.log).previous, name) && !Newest(s.log).deleting
    ensures Found(s, name, Lookup(s, name))
  {
    assert Lasting(Newest(s.log), name);
    assert SafeRef(s, name) && StoredOk(s, name);
  }

  lemma FoundNext(s: State, x: Executor, y: Executor)
    requires x.read.Some? && FoundAll(s, x) && y.read == x.read && |y.fetched| == |x.fetched| + 1 && y.fetched[..|x.fetched|] == x.fetched
    requires |x.fetched| < |PreviousSlices(s.log.versions[x.read.value])|
    requires Found(s, PreviousSlices(s.log.versions[x.read.value])[|x.fetched|], y.fetched[|x.fetched|])
    ensures FoundAll(s, y)
  {
    var names := PreviousSlices(s.log.versions[x.read.value]);
    forall k | 0 <= k < |y.fetched| ensures Found(s, names[k], y.fetched[k]) {
      if k < |x.fetched| {
        assert y.fetched[k] == y.fetched[..|x.fetched|][k];
        assert Found(s, names[k], x.fetched[k]);
      }
    }
  }

  /** The lookup of a slice of Previous finds it. */
  lemma FetchFinds(s: State, x: Executor, y: Executor)
    requires Safe(s) && x in s.executors && x.read.Some? && CanCommit(s, x.env) && !Newest(s.log).deleting
    requires x.read.value < |s.log.versions| && |x.fetched| < |PreviousSlices(s.log.versions[x.read.value])|
    requires y == x.(fetched := x.fetched + [Lookup(s, PreviousSlices(s.log.versions[x.read.value])[|x.fetched|])])
    ensures FoundAll(s, y)
  {
    assert ExecutorOk(s, x) && ExecutorSafe(s, x);
    PreviousAsRead(s, x);
    var names := PreviousSlices(s.log.versions[x.read.value]);
    assert References(Newest(s.log).previous, names[|x.fetched|]);
    LastingIsFound(s, names[|x.fetched|]);
    FoundNext(s, x, y);
  }

  lemma FetchingIsSafe(s: State, t: State, x: Executor, y: Executor)
    requires Safe(s) && x in s.executors && Extends(s, t) && t.log == s.log && t.stored == s.stored && t.condemned == s.condemned
    requires x.read.Some? && x.read.value < |s.log.versions| && |x.fetched| < |PreviousSlices(s.log.versions[x.read.value])|
    requires y == x.(fetched := x.fetched + [Lookup(s, PreviousSlices(s.log.versions[x.read.value])[|x.fetched|])])
    requires !Newest(s.log).deleting
    ensures ExecutorSafe(t, y)
  {
    if CanCommit(s, x.env) {
      assert ExecutorSafe(s, x);
      FetchFinds(s, x, y);
      FoundAllExtends(s, t, y);
    }
  }

  lemma FetchKeepsSafe(s: State, e: nat)
    requires Safe(s) && Origins(AfterFetch(s, e))
    ensures Safe(AfterFetch(s, e))
  {
    var t := AfterFetch(s, e);
    if t != s {
      if !Newest(s.log).deleting {
        assert s.executors[e] in s.executors;
        FetchingIsSafe(s, t, s.executors[e], t.executors[e]);
      }
      ExecutorStepKeepsSafe(s, t);
    }
  }

  lemma CreateSliceSafe(s: State, e: nat, z: Executor)
    requires Safe(s) && !Newest(s.log).deleting && z in AfterCreateSlice(s, e).executors
    ensures ExecutorSafe(AfterCreateSlice(s, e), z)
  {
    var t := AfterCreateSlice(s, e);
    NextExtends(s, CreateSlice(e));
    if t == s {
      assert ExecutorSafe(s, z);
    } else if CanCommit(s, z.env) {
      var x := if z in s.executors then z else s.executors[e];
      assert x in s.executors && ExecutorSafe(s, x);
      FoundAllExtends(s, t, x);
      if !Outrun(s, x) {
        forall name <- z.refs ensures Kept(t, name) {
          assert name != |s.specs| ==> Kept(s, name);
        }
      }
    }
  }

  lemma CreateSliceKeepsSafe(s: State, e: nat)
    requires Safe(s) && Origins(AfterCreateSlice(s, e))
    ensures Safe(AfterCreateSlice(s, e))
  {
    var t := AfterCreateSlice(s, e);
    forall name <- t.stored ensures StoredOk(t, name) {
      if name < |s.specs| { assert StoredOk(s, name); }
    }
    if !Newest(t.log).deleting {
      forall name | Lasting(Newest(t.log), name) ensures SafeRef(t, name) { assert SafeRef(s, name); }
      forall z <- t.executors ensures ExecutorSafe(t, z) { CreateSliceSafe(s, e, z); }
    }
  }

  // ---------- Steps of the store ----------

  /** A slice that must not go: it is lasting, or an executor may still commit it. */
  ghost predicate Needed(s: State, name: SliceName)
    requires s.log.versions != []
  {
    Lasting(Newest(s.log), name) || exists x <- s.executors :: CanCommit(s, x.env) && !Outrun(s, x) && name in x.refs
  }

  lemma StoreStepKeepsSafe(s: State, t: State)
    requires Safe(s) && Origins(t) && Extends(s, t)
    requires t.(stored := s.stored, left := s.left, condemned := s.condemned, recorded := s.recorded) == s
    requires forall name <- t.stored :: StoredOk(t, name)
    requires forall name <- t.condemned :: name < |s.specs|
    requires !Newest(s.log).deleting ==> forall name :: Needed(s, name) && Kept(s, name) ==> Kept(t, name)
    ensures Safe(t)
  {
    if !Newest(t.log).deleting {
      forall name | Lasting(Newest(t.log), name) ensures SafeRef(t, name) { assert Needed(s, name) && SafeRef(s, name); }
      forall x <- t.executors ensures ExecutorSafe(t, x) {
        assert ExecutorSafe(s, x);
        if CanCommit(s, x.env) {
          FoundAllExtends(s, t, x);
          if !Outrun(s, x) {
            forall name <- x.refs ensures Kept(t, name) { assert Needed(s, name) && Kept(s, name); }
          }
        }
      }
    }
  }

  lemma RecordStatusKeepsSafe(s: State, name: SliceName, status: seq<ResourceState>)
    requires Safe(s) && Origins(AfterRecordStatus(s, name, status))
    ensures Safe(AfterRecordStatus(s, name, status))
  {
    var t := AfterRecordStatus(s, name, status);
    forall n <- t.stored ensures StoredOk(t, n) { assert StoredOk(s, n); }
    StoreStepKeepsSafe(s, t);
  }

  lemma CondemnKeepsSafe(s: State, name: SliceName)
    requires Safe(s) && Origins(AfterCondemn(s, name))
    ensures Safe(AfterCondemn(s, name))
  {
    var t := AfterCondemn(s, name);
    forall n <- t.stored ensures StoredOk(t, n) { assert StoredOk(s, n); }
    if t != s && !Newest(s.log).deleting && Needed(s, name) {
      if Lasting(Newest(s.log), name) {
        CondemnSparesLasting(s, name);
      } else {
        var x :| x in s.executors && CanCommit(s, x.env) && !Outrun(s, x) && name in x.refs;
        CondemnSparesPending(s, x, name);
      }
    }
    StoreStepKeepsSafe(s, t);
  }

  /** What was decided is carried out; nothing that is needed was decided. */
  lemma DeleteKeepsSafe(s: State, t: State, name: SliceName)
    requires Safe(s) && t == AfterDelete(s, name) && Origins(t)
    ensures Safe(t)
  {
    forall n <- t.stored ensures StoredOk(t, n) { assert StoredOk(s, n); }
    StoreStepKeepsSafe(s, t);
  }

  lemma ReleaseKeepsSafe(s: State, t: State, name: SliceName)
    requires Safe(s) && t == AfterRelease(s, name) && Origins(t)
    ensures Safe(t)
  {
    forall n <- t.stored ensures StoredOk(t, n) { assert StoredOk(s, n); }
    StoreStepKeepsSafe(s, t);
  }

  lemma ExecutorEventKeepsSafe(s: State, ev: Event)
    requires Safe(s) && Origins(NextState(s, ev)) && (ev.CreatePod? || ev.Read? || ev.Fetch? || ev.Synthesize? || ev.CreateSlice?)
    ensures Safe(NextState(s, ev))
  {
    match ev
    case CreatePod(base) => CreatePodKeepsSafe(s, base);
    case Read(e, version) => ReadKeepsSafe(s, e, version);
    case Fetch(e) => FetchKeepsSafe(s, e);
    case Synthesize(e, outputs) => SynthesizeKeepsSafe(s, e, outputs);
    case CreateSlice(e) => CreateSliceKeepsSafe(s, e);
  }

  lemma NextKeepsSafe(s: State, ev: Event)
    requires Safe(s) && Admissible(s, ev)
    ensures Safe(NextState(s, ev))
  {
    var t := NextState(s, ev);
    NextKeepsOrigins(s, ev);
    if ev.Write? {
      WriteKeepsSafe(s, ev);
    } else if ev.Finish? {
      FinishKeepsSafe(s, ev);
    } else if ev.RecordStatus? {
      RecordStatusKeepsSafe(s, ev.name, ev.status);
    } else if ev.Condemn? {
      CondemnKeepsSafe(s, ev.name);
    } else if ev.Delete? {
      DeleteKeepsSafe(s, t, ev.name);
    } else if ev.Release? {
      ReleaseKeepsSafe(s, t, ev.name);
    } else {
      ExecutorEventKeepsSafe(s, ev);
    }
  }

  lemma {:induction false} RunKeepsSafe(c: Composition, events: seq<Event>)
    requires Initial(c) && AdmissibleRun(c, events)
    ensures Safe(Execute(c, events))
  {
    if events != [] {
      AdmissibleInit(c, events);
      RunKeepsSafe(c, events[..|events| - 1]);
      NextKeepsSafe(Execute(c, events[..|events| - 1]), events[|events| - 1]);
    }
  }

  // ---------- Each successful synthesis was diffed against the one before it ----------

  ghost predicate Completed(s: State, x: Executor) {
    ExecutorOk(s, x) && Planned(x) && x.read.Some?
  }

  ghost predicate Linked(s: State, d: Executor, e: Executor) {
    && e.read.Some? && e.read.value < |s.log.versions|
    && PreviousSlices(s.log.versions[e.read.value]) == d.refs
    && FoundAll(s, e)
  }

  function LastRefs(done: seq<Executor>): Option<seq<SliceName>> {
    if done == [] then None else Some(done[|done| - 1].refs)
  }

  ghost predicate Chain(s: State) {
    && s.log.versions != []
    && (forall x <- s.done :: Completed(s, x))
    && (!Newest(s.log).deleting ==>
          && NewestSlices(Newest(s.log)) == LastRefs(s.done)
          && forall m :: 0 < m < |s.done| ==> Linked(s, s.done[m - 1], s.done[m]))
  }

  lemma StepNewest(c: Composition, a: Action, d: Composition, issued: Uuid)
    requires Good(c, issued) && Rewrite(c, a, issued + 1) == Some(d) && !d.deleting
    ensures NewestSlices(d) == if a.Commit? && !HasError(a.output.results) then Some(a.output.slices) else NewestSlices(c)
  {
    if a.Commit? {
      assert d.current.value.results == a.output.results;
    }
  }

  lemma CompletedExtends(s: State, t: State, x: Executor)
    requires Extends(s, t) && Completed(s, x)
    ensures Completed(t, x)
  {
    ExecutorOkExtends(s, t, x);
  }

  lemma LinkedExtends(s: State, t: State, d: Executor, e: Executor)
    requires Extends(s, t) && Linked(s, d, e)
    ensures Linked(t, d, e)
  {
    FoundAllExtends(s, t, e);
  }

  /** The executor that commits next was diffed against the last one that did. */
  lemma FinishLinks(s: State, x: Executor)
    requires Safe(s) && Chain(s) && x in s.executors && x.plan.Some? && CanCommit(s, x.env) && !Newest(s.log).deleting && s.done != []
    ensures Linked(s, s.done[|s.done| - 1], x)
  {
    assert ExecutorOk(s, x) && ExecutorSafe(s, x);
    PreviousAsRead(s, x);
  }

  /** What a request does to the newest successful synthesis. */
  lemma ServeNewestSlices(log: Log, r: Request)
    requires Inv(log) && Outcome(log, r).Some? && !Newest(Serve(log, r)).deleting
    ensures NewestSlices(Newest(Serve(log, r))) ==
            if r.action.Commit? && !HasError(r.action.output.results) then Some(r.action.output.slices) else NewestSlices(Newest(log))
  {
    assert Good(Newest(log), log.issued);
    NextRewrites(Newest(log), r.action, log.issued + 1);
    assert Newest(Serve(log, r)) == Outcome(log, r).value;
    StepNewest(Newest(log), r.action, Outcome(log, r).value, log.issued);
  }

  /** What the step does to it. */
  lemma NextNewest(s: State, ev: Event)
    requires Inv(s.log) && NewestSlices(Newest(s.log)) == LastRefs(s.done) && !Newest(NextState(s, ev).log).deleting
    ensures NewestSlices(Newest(NextState(s, ev).log)) == LastRefs(NextState(s, ev).done)
  {
    if NextState(s, ev).log != s.log {
      var r := LogRequest(s, ev);
      ServeNewestSlices(s.log, r);
    }
  }

  /** Only a commit adds to the completed syntheses, and it adds its own executor. */
  lemma NextDone(s: State, ev: Event)
    requires s.log.versions != [] && NextState(s, ev).done != s.done
    ensures ev.Finish? && ev.e < |s.executors| && Planned(s.executors[ev.e]) && CanCommit(s, s.executors[ev.e].env)
    ensures NextState(s, ev).done == s.done + [s.executors[ev.e]]
  {
  }

  lemma NextKeepsCompleted(s: State, ev: Event, x: Executor)
    requires Origins(s) && Chain(s) && x in NextState(s, ev).done
    ensures Completed(NextState(s, ev), x)
  {
    var t := NextState(s, ev);
    NextExtends(s, ev);
    if x !in s.done {
      NextDone(s, ev);
      assert x in s.executors && ExecutorOk(s, x);
    }
    assert Completed(s, x);
    CompletedExtends(s, t, x);
  }

  lemma NextKeepsLink(s: State, ev: Event, m: nat)
    requires Safe(s) && Chain(s) && !Newest(s.log).deleting && 0 < m < |NextState(s, ev).done|
    ensures Linked(NextState(s, ev), NextState(s, ev).done[m - 1], NextState(s, ev).done[m])
  {
    var t := NextState(s, ev);
    NextExtends(s, ev);
    if t.done != s.done {
      NextDone(s, ev);
      if m == |s.done| {
        FinishLinks(s, s.executors[ev.e]);
      }
    }
    LinkedExtends(s, t, t.done[m - 1], t.done[m]);
  }

  lemma NextKeepsChain(s: State, ev: Event)
    requires Safe(s) && Chain(s)
    ensures Chain(NextState(s, ev))
  {
    var t := NextState(s, ev);
    NextKeepsOrigins(s, ev);
    forall x <- t.done ensures Completed(t, x) { NextKeepsCompleted(s, ev, x); }
    if !Newest(t.log).deleting {
      NextExtends(s, ev);
      StillAlive(s, t);
      NextNewest(s, ev);
      forall m | 0 < m < |t.done| ensures Linked(t, t.done[m - 1], t.done[m]) { NextKeepsLink(s, ev, m); }
    }
  }

  lemma {:induction false} RunKeepsChain(c: Composition, events: seq<Event>)
    requires Initial(c) && AdmissibleRun(c, events)
    ensures Safe(Execute(c, events)) && Chain(Execute(c, events))
  {
    RunKeepsSafe(c, events);
    if events != [] {
      AdmissibleInit(c, events);
      RunKeepsChain(c, events[..|events| - 1]);
      NextKeepsChain(Execute(c, events[..|events| - 1]), events[|events| - 1]);
    }
  }

  // ---------- The theorem ----------

  /** Position `i` of slice `name` holds this resource, itself and not as a Patch. */
  predicate At(s: State, name: SliceName, i: nat, ref: ResourceRef) {
    name < |s.specs| && i < |s.specs[name].resources| && !s.specs[name].resources[i].isPatch && s.specs[name].resources[i].ref == ref
  }

  /** The synthesis of `x` holds this resource, live or as a tombstone. */
  ghost predicate HoldsResource(s: State, x: Executor, ref: ResourceRef) {
    exists name, i: nat :: name in x.refs && At(s, name, i, ref)
  }

  /** Every copy of the resource in the synthesis of `x` is a tombstone recorded as Reconciled. */
  ghost predicate DeletionRecorded(s: State, x: Executor, ref: ResourceRef) {
    forall name, i: nat :: name in x.refs && At(s, name, i, ref) ==> s.specs[name].resources[i].deleted && (name, i) in s.recorded
  }

  predicate TakenOverByPatch(x: Executor, ref: ResourceRef) {
    exists o <- x.outputs :: o.isPatch && o.ref == ref
  }

  lemma {:induction false} PresentIsAll(fetched: seq<Option<ResourceSlice>>)
    requires forall k :: 0 <= k < |fetched| ==> fetched[k].Some?
    ensures |Present(fetched)| == |fetched| && forall k :: 0 <= k < |fetched| ==> Present(fetched)[k] == fetched[k].value
  {
    if fetched != [] {
      PresentIsAll(fetched[..|fetched| - 1]);
    }
  }

  /** Some slice of the synthesis has this very manifest. */
  ghost predicate HasManifest(s: State, x: Executor, m: Manifest) {
    exists name, i: nat :: name in x.refs && name < |s.specs| && i < |s.specs[name].resources| && s.specs[name].resources[i] == m
  }

  /** Whatever had to be stored is in the slices that were created. */
  lemma ManifestIsStored(s: State, x: Executor, m: Manifest)
    requires Completed(s, x) && AllAligned(Present(x.fetched)) && m in Manifests(x.outputs, Present(x.fetched))
    ensures HasManifest(s, x, m)
  {
    var all := Manifests(x.outputs, Present(x.fetched));
    var groups := Pack(all, MAX_SLICE_BYTES);
    PackingLosesNothing(all, MAX_SLICE_BYTES);
    FlattenHas(groups, m);
    var k :| 0 <= k < |groups| && m in groups[k];
    assert RefOk(s, x, k);
    assert s.specs[x.refs[k]].resources == groups[k];
    var i :| 0 <= i < |groups[k]| && groups[k][i] == m;
    assert x.refs[k] in x.refs;
  }

  /** A lookup of this executor shows the manifest at a position that is still to be deleted: it has not
      been recorded as reconciled since it became a tombstone or its slice began to be deleted. */
  ghost predicate ShownOutstanding(x: Executor, m: Manifest) {
    exists k: nat, i: nat :: k < |x.fetched| && x.fetched[k].Some? && i < |x.fetched[k].value.spec.resources|
      && m == x.fetched[k].value.spec.resources[i].(deleted := true) && !x.fetched[k].value.spec.resources[i].isPatch
      && !((x.fetched[k].value.spec.resources[i].deleted || x.fetched[k].value.deleting)
           && i < |x.fetched[k].value.status| && x.fetched[k].value.status[i].reconciled)
  }

  lemma {:induction false} PresentIsFetched(fetched: seq<Option<ResourceSlice>>, p: nat) returns (k: nat)
    requires p < |Present(fetched)|
    ensures k < |fetched| && fetched[k].Some? && fetched[k].value == Present(fetched)[p]
  {
    var n := |fetched| - 1;
    if p < |Present(fetched[..n])| {
      k := PresentIsFetched(fetched[..n], p);
    } else {
      k := n;
    }
  }

  /** What an executor plans to store: live manifests are its outputs, and tombstones are for positions that
      its lookups show and that are not recorded as deleted yet. So what is recorded is not deleted again. */
  lemma PlanIsOutputsAndOutstanding(s: State, x: Executor, k: nat, m: Manifest)
    requires ExecutorOk(s, x) && x.plan.Some? && k < |x.plan.value| && m in x.plan.value[k].resources
    ensures if m.deleted then ShownOutstanding(x, m) && forall o <- x.outputs :: o.ref != m.ref
            else exists o <- x.outputs :: m.ref == o.ref && m.isPatch == o.isPatch && m.bytes == o.bytes
  {
    var previous := Present(x.fetched);
    var all := Manifests(x.outputs, previous);
    var groups := Pack(all, MAX_SLICE_BYTES);
    PackingLosesNothing(all, MAX_SLICE_BYTES);
    FlattenHas(groups, m);
    assert m in groups[k] && m in all;
    var j :| 0 <= j < |all| && all[j] == m;
    if j < |x.outputs| {
      OutputsComeFirst(x.outputs, previous, j);
      assert x.outputs[j] in x.outputs;
    } else {
      assert m in Tombstones(previous, RefsOf(x.outputs));
      TombstonesAreSound(previous, RefsOf(x.outputs), m);
      TombstonesExactly(x.outputs, previous, m);
      var p: nat, i: nat :| Outstanding(x.outputs, previous, p, i) && m == previous[p].spec.resources[i].(deleted := true);
      var f := PresentIsFetched(x.fetched, p);
      assert ShownOutstanding(x, m);
    }
  }

  lemma ManifestHolds(s: State, x: Executor, m: Manifest)
    requires HasManifest(s, x, m) && !m.isPatch
    ensures HoldsResource(s, x, m.ref)
  {
    var name, i: nat :| name in x.refs && name < |s.specs| && i < |s.specs[name].resources| && s.specs[name].resources[i] == m;
    assert At(s, name, i, m.ref);
  }

  /** One link: a resource that the next synthesis does not hold was given up properly. */
  lemma LinkAccounts(s: State, d: Executor, e: Executor, ref: ResourceRef)
    requires Linked(s, d, e) && Completed(s, e) && !HoldsResource(s, e, ref)
    ensures TakenOverByPatch(e, ref) || DeletionRecorded(s, d, ref)
  {
    var previous := Present(e.fetched);
    assert forall k :: 0 <= k < |e.fetched| ==> Found(s, d.refs[k], e.fetched[k]);
    PresentIsAll(e.fetched);
    if !TakenOverByPatch(e, ref) {
      forall name, i: nat | name in d.refs && At(s, name, i, ref)
        ensures s.specs[name].resources[i].deleted && (name, i) in s.recorded
      {
        var k :| 0 <= k < |d.refs| && d.refs[k] == name;
        assert Found(s, name, e.fetched[k]) && previous[k] == e.fetched[k].value;
        NothingIsForgotten(e.outputs, previous, k, i);
        if m :| m in Manifests(e.outputs, previous) && m.ref == ref && !m.isPatch {
          ManifestIsStored(s, e, m);
          ManifestHolds(s, e, m);
        }
        assert Buried(previous[k], i);
      }
    }
  }

  /** How a resource left: synthesis `m` was the last to hold it, and gave it up properly. */
  ghost predicate LeftProperly(s: State, m: nat, ref: ResourceRef) {
    && m + 1 < |s.done|
    && HoldsResource(s, s.done[m], ref)
    && (forall l :: m < l < |s.done| ==> !HoldsResource(s, s.done[l], ref))
    && (DeletionRecorded(s, s.done[m], ref) || TakenOverByPatch(s.done[m + 1], ref))
  }

  lemma {:induction false} ChainAccounts(s: State, j: nat, ref: ResourceRef)
    requires Chain(s) && !Newest(s.log).deleting && j < |s.done| && HoldsResource(s, s.done[j], ref)
    ensures HoldsResource(s, s.done[|s.done| - 1], ref) || exists m :: j <= m && LeftProperly(s, m, ref)
    decreases |s.done| - j
  {
    if k :| j < k < |s.done| && HoldsResource(s, s.done[k], ref) {
      ChainAccounts(s, k, ref);
    } else if j + 1 < |s.done| {
      assert Linked(s, s.done[j], s.done[j + 1]);
      assert s.done[j + 1] in s.done;
      LinkAccounts(s, s.done[j], s.done[j + 1], ref);
      assert LeftProperly(s, j, ref);
    }
  }

  /** The resource is held by the newest successful synthesis, to which the status refers, or it left
      properly after the `j`-th one. */
  ghost predicate AccountedFor(s: State, j: nat, ref: ResourceRef)
    requires s.log.versions != [] && j < |s.done|
  {
    && NewestSlices(Newest(s.log)) == Some(s.done[|s.done| - 1].refs)
    && (HoldsResource(s, s.done[|s.done| - 1], ref) || exists m :: j <= m && LeftProperly(s, m, ref))
  }

  lemma StateAccounts(s: State, j: nat, ref: ResourceRef)
    requires Chain(s) && !Newest(s.log).deleting && j < |s.done| && HoldsResource(s, s.done[j], ref)
    ensures AccountedFor(s, j, ref)
  {
    ChainAccounts(s, j, ref);
  }

  /** Across any interleaving of swaps, failed syntheses, retries and garbage collection: a resource
      of a stored successful synthesis is held by the newest one (which the status refers to), or the
      last synthesis that held it held nothing but tombstones recorded as Reconciled, or the next one
      took it over as a Patch. */
  lemma {:induction false} NothingIsOrphaned(c: Composition, events: seq<Event>, j: nat, ref: ResourceRef)
    requires Initial(c) && AdmissibleRun(c, events)
    requires !Newest(Execute(c, events).log).deleting
    requires j < |Execute(c, events).done| && HoldsResource(Execute(c, events), Execute(c, events).done[j], ref)
    ensures AccountedFor(Execute(c, events), j, ref)
  {
    RunKeepsChain(c, events);
    StateAccounts(Execute(c, events), j, ref);
  }

  // ---------- While the worker's reads do not go back ----------

  /** No successful result of an outrun executor is stored. */
  predicate NoOutrunSuccess(c: Composition, events: seq<Event>) {
    events == [] ||
    var before, ev := events[..|events| - 1], events[|events| - 1];
    NoOutrunSuccess(c, before) && (StoresSuccess(Execute(c, before), ev) ==> !Outrun(Execute(c, before), Execute(c, before).executors[ev.e]))
  }

  /** An executor that read the composition before any attempt was recorded, or after its own was, is not
      outrun when its result is stored. */
  lemma OwnReadIsNotOutrun(s: State, ev: Event)
    requires Origins(s) && StoresSuccess(s, ev) && s.executors[ev.e].read.Some?
    ensures var x := s.executors[ev.e];
            && x.read.value < |s.log.versions| && s.log.versions[x.read.value].current.Some?
            && (var attempts := s.log.versions[x.read.value].current.value.attempts;
                attempts == 0 || attempts == x.env.attempt ==> !Outrun(s, x))
  {
    assert ExecutorOk(s, s.executors[ev.e]);
  }

  lemma {:induction false} OrderlyIsAdmissible(c: Composition, events: seq<Event>)
    requires Initial(c) && OrderlyRun(c, events) && NoOutrunSuccess(c, events)
    ensures AdmissibleRun(c, events)
  {
    if events != [] {
      var before := events[..|events| - 1];
      OrderlyIsAdmissible(c, before);
      OrderlyIsPaced(c, before);
      ExecuteKeepsOrigins(c, before);
      StepKeepsPaced(Execute(c, before), events[|events| - 1], LastBase(c, before));
      AdmissibleSnoc(c, before, events[|events| - 1]);
      assert before + [events[|events| - 1]] == events;
    }
  }

  /** The same without a word about the counter: it is enough that the worker that records attempts
      never reads an older version than before. */
  lemma {:induction false} NothingIsOrphanedInOrder(c: Composition, events: seq<Event>, j: nat, ref: ResourceRef)
    requires Initial(c) && OrderlyRun(c, events) && NoOutrunSuccess(c, events)
    requires !Newest(Execute(c, events).log).deleting
    requires j < |Execute(c, events).done| && HoldsResource(Execute(c, events), Execute(c, events).done[j], ref)
    ensures AccountedFor(Execute(c, events), j, ref)
  {
    OrderlyIsAdmissible(c, events);
    NothingIsOrphaned(c, events, j, ref);
  }
}
