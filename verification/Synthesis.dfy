/** Executors, slices and garbage collection around the log of one composition. Any number of
    executors run side by side; reads of the composition may be stale, slices are looked up and
    created one by one, and a delete decision is carried out at some later time. */
module SynthesisRuns {
  import opened Api
  import opened Lifecycle
  import opened History
  import opened Slicing
  import opened SliceCleanup

  const MAX_SLICE_BYTES: nat := 1024 * 512

  /** `read` is the version the executor started from, `fetched` its lookups of the slices of
      Previous so far, `refs` the names of the planned slices created so far. */
  datatype Executor = Executor(
    env: Env,
    read: Option<nat>,
    fetched: seq<Option<ResourceSlice>>,
    outputs: seq<Object>,
    plan: Option<seq<SliceSpec>>,
    refs: seq<SliceName>)

  datatype Stored = Stored(deleting: bool, status: seq<ResourceState>)

  /** The environment of the executor that created a slice, and the version it had read. */
  datatype Author = Author(env: Env, version: nat)

  /** How a slice left the store: the newest version of the composition and the slice at that time. */
  datatype Exit = Exit(comp: Composition, slice: ResourceSlice)

  datatype State = State(
    log: Log,
    executors: seq<Executor>,
    specs: seq<SliceSpec>,               // every slice ever created, by name
    authors: seq<Author>,
    stored: map<SliceName, Stored>,      // the slices that exist
    left: map<SliceName, Exit>,          // the slices that do not exist any more
    condemned: set<SliceName>,           // delete decided but perhaps not sent yet
    recorded: set<(SliceName, nat)>,     // positions ever recorded as Reconciled
    done: seq<Executor>)                 // executors whose successful result was stored, in order

  datatype Event =
    | Write(request: Request)
    | CreatePod(base: nat)
    | Read(e: nat, version: nat)
    | Fetch(e: nat)
    | Synthesize(e: nat, outputs: seq<Object>)
    | CreateSlice(e: nat)
    | Finish(e: nat, base: nat, results: seq<Result>, inputRevisions: seq<InputRevision>, synthesizerGeneration: int, now: Time)
    | RecordStatus(name: SliceName, status: seq<ResourceState>)
    | Condemn(name: SliceName)
    | Delete(name: SliceName)
    | Release(name: SliceName)

  function PreviousSlices(c: Composition): seq<SliceName> {
    if c.previous.Some? then c.previous.value.slices else []
  }

  function Lookup(s: State, name: SliceName): Option<ResourceSlice> {
    if name in s.stored && name < |s.specs|
    then Some(ResourceSlice(s.specs[name], s.stored[name].deleting, s.stored[name].status))
    else None
  }

  /** Missing slices are skipped. */
  function Present(fetched: seq<Option<ResourceSlice>>): seq<ResourceSlice> {
    if fetched == [] then []
    else Present(fetched[..|fetched| - 1]) + if fetched[|fetched| - 1].Some? then [fetched[|fetched| - 1].value] else []
  }

  function ReconciledAt(name: SliceName, status: seq<ResourceState>): set<(SliceName, nat)> {
    set i: nat | i < |status| && status[i].reconciled :: (name, i)
  }

  // ---------- Steps; an event that is not possible changes nothing ----------

  function AfterCreatePod(s: State, base: nat): State {
    if base < |s.log.versions| && Active(s.log.versions[base]) && !s.log.versions[base].deleting then
      var current := s.log.versions[base].current.value;
      s.(executors := s.executors + [Executor(Env(current.uuid, current.attempts + 1), None, [], [], None, [])])
    else s
  }

  /** Also what a restarted container does. */
  function AfterRead(s: State, e: nat, version: nat): State {
    if e < |s.executors| && version < |s.log.versions| && !SkipSynthesis(s.log.versions[version], s.executors[e].env)
    then s.(executors := s.executors[e := Executor(s.executors[e].env, Some(version), [], [], None, [])])
    else s
  }

  predicate Reading(s: State, e: nat) {
    e < |s.executors| && s.executors[e].read.Some? && s.executors[e].read.value < |s.log.versions| && s.executors[e].plan.None?
  }

  function AfterFetch(s: State, e: nat): State {
    if Reading(s, e) then
      var x := s.executors[e];
      var names := PreviousSlices(s.log.versions[x.read.value]);
      if |x.fetched| < |names|
      then s.(executors := s.executors[e := x.(fetched := x.fetched + [Lookup(s, names[|x.fetched|])])])
      else s
    else s
  }

  predicate CanSlice(x: Executor, c: Composition, outputs: seq<Object>) {
    && |x.fetched| == |PreviousSlices(c)|
    && AllAligned(Present(x.fetched))
    && (forall o <- outputs :: o.encodes)
    && (forall p <- Present(x.fetched) :: Decodes(p))
  }

  function AfterSynthesize(s: State, e: nat, outputs: seq<Object>): State {
    if Reading(s, e) && CanSlice(s.executors[e], s.log.versions[s.executors[e].read.value], outputs) then
      var x := s.executors[e];
      var plan := Sliced(s.log.versions[x.read.value], Present(x.fetched), outputs, MAX_SLICE_BYTES);
      s.(executors := s.executors[e := x.(outputs := outputs, plan := Some(plan))])
    else s
  }

  /** A create that is repeated after a timeout may leave one more slice that nothing refers to; that is
      the same as the slice of an executor that has restarted. */
  function AfterCreateSlice(s: State, e: nat): State {
    if e < |s.executors| && s.executors[e].plan.Some? && s.executors[e].read.Some? && |s.executors[e].refs| < |s.executors[e].plan.value| then
      var x, name := s.executors[e], |s.specs|;
      s.(executors := s.executors[e := x.(refs := x.refs + [name])],
         specs := s.specs + [x.plan.value[|x.refs|]],
         authors := s.authors + [Author(x.env, x.read.value)],
         stored := s.stored[name := Stored(false, [])])
    else s
  }

  predicate Planned(x: Executor) {
    x.plan.Some? && |x.refs| == |x.plan.value|
  }

  function CommitRequest(x: Executor, ev: Event): Request
    requires ev.Finish?
  {
    Request(ev.base, Commit(x.env, Output(x.refs, ev.results, ev.inputRevisions, ev.synthesizerGeneration), ev.now))
  }

  function AfterFinish(s: State, ev: Event): State
    requires ev.Finish? && s.log.versions != []
  {
    if ev.e < |s.executors| && Planned(s.executors[ev.e]) && Outcome(s.log, CommitRequest(s.executors[ev.e], ev)).Some? then
      var x := s.executors[ev.e];
      s.(log := Serve(s.log, CommitRequest(x, ev)), done := if HasError(ev.results) then s.done else s.done + [x])
    else s
  }

  function AfterRecordStatus(s: State, name: SliceName, status: seq<ResourceState>): State {
    if name in s.stored && name < |s.specs| && |status| == |s.specs[name].resources|
    then s.(stored := s.stored[name := s.stored[name].(status := status)], recorded := s.recorded + ReconciledAt(name, status))
    else s
  }

  function AfterCondemn(s: State, name: SliceName): State
    requires s.log.versions != []
  {
    if name in s.stored && name < |s.specs| && !s.stored[name].deleting && ShouldDeleteSlice(Newest(s.log), name, s.specs[name])
    then s.(condemned := s.condemned + {name})
    else s
  }

  function AfterDelete(s: State, name: SliceName): State {
    if name in s.stored && name in s.condemned
    then s.(stored := s.stored[name := s.stored[name].(deleting := true)])
    else s
  }

  /** Check and removal are one step: a slice that is being deleted does not come back, so what happens in
      between does not matter for the theorems here. */
  function AfterRelease(s: State, name: SliceName): State
    requires s.log.versions != []
  {
    if name in s.stored && s.stored[name].deleting && Lookup(s, name).Some? &&
       ShouldReleaseFinalizer(Newest(s.log), name, Lookup(s, name).value)
    then s.(stored := s.stored - {name}, left := s.left[name := Exit(Newest(s.log), Lookup(s, name).value)])
    else s
  }

  function NextState(s: State, ev: Event): State
    requires s.log.versions != []
  {
    match ev
    case Write(r) => if r.action.Commit? then s else s.(log := Serve(s.log, r))
    case CreatePod(base) => AfterCreatePod(s, base)
    case Read(e, version) => AfterRead(s, e, version)
    case Fetch(e) => AfterFetch(s, e)
    case Synthesize(e, outputs) => AfterSynthesize(s, e, outputs)
    case CreateSlice(e) => AfterCreateSlice(s, e)
    case Finish(_, _, _, _, _, _) => AfterFinish(s, ev)
    case RecordStatus(name, status) => AfterRecordStatus(s, name, status)
    case Condemn(name) => AfterCondemn(s, name)
    case Delete(name) => AfterDelete(s, name)
    case Release(name) => AfterRelease(s, name)
  }

  function Begin(c: Composition): State {
    State(Start(c), [], [], [], map[], map[], {}, {}, [])
  }

  function Execute(c: Composition, events: seq<Event>): (s: State)
    ensures s.log.versions != []
  {
    if events == [] then Begin(c) else NextState(Execute(c, events[..|events| - 1]), events[|events| - 1])
  }

  lemma ExecuteSnoc(c: Composition, events: seq<Event>, ev: Event)
    ensures Execute(c, events + [ev]) == NextState(Execute(c, events), ev)
  {
    assert (events + [ev])[..|events|] == events;
  }

  /** The events of a continuation. */
  function Steps(s: State, more: seq<Event>): (t: State)
    requires s.log.versions != []
    ensures t.log.versions != []
  {
    if more == [] then s else NextState(Steps(s, more[..|more| - 1]), more[|more| - 1])
  }

  lemma StepsSnoc(s: State, more: seq<Event>, ev: Event)
    requires s.log.versions != []
    ensures Steps(s, more + [ev]) == NextState(Steps(s, more), ev)
  {
    assert (more + [ev])[..|more|] == more;
  }

  lemma {:induction false} ExecuteSteps(c: Composition, events: seq<Event>, more: seq<Event>)
    ensures Execute(c, events + more) == Steps(Execute(c, events), more)
  {
    if more == [] {
      assert events + more == events;
    } else {
      ExecuteSteps(c, events, more[..|more| - 1]);
      assert (events + more)[..|events + more| - 1] == events + more[..|more| - 1];
    }
  }

  // ---------- Invariant: where slices and references come from ----------

  /** An executor that has read version `r` acts for the synthesis that was in progress there. */
  ghost predicate ReadOk(log: Log, env: Env, r: nat) {
    env.uuid != NO_UUID && r < |log.versions| && !SkipSynthesis(log.versions[r], env)
  }

  ghost predicate ExecutorOk(s: State, x: Executor) {
    && x.env.uuid != NO_UUID && x.env.uuid <= s.log.issued
    && (x.read.None? ==> x.fetched == [] && x.plan.None?)
    && (x.plan.None? ==> x.refs == [])
    && (x.read.Some? ==> ReadOk(s.log, x.env, x.read.value) && |x.fetched| <= |PreviousSlices(s.log.versions[x.read.value])|)
    && (x.plan.Some? ==>
          && |x.fetched| == |PreviousSlices(s.log.versions[x.read.value])|
          && AllAligned(Present(x.fetched))
          && x.plan.value == Sliced(s.log.versions[x.read.value], Present(x.fetched), x.outputs, MAX_SLICE_BYTES)
          && |x.refs| <= |x.plan.value|
          && forall k :: 0 <= k < |x.refs| ==> RefOk(s, x, k))
  }

  /** The k-th created slice is the k-th planned one. */
  ghost predicate RefOk(s: State, x: Executor, k: nat)
    requires x.plan.Some? && x.read.Some? && k < |x.refs| <= |x.plan.value|
  {
    && x.refs[k] < |s.specs| && x.refs[k] < |s.authors|
    && s.specs[x.refs[k]] == x.plan.value[k]
    && s.authors[x.refs[k]] == Author(x.env, x.read.value)
  }

  /** The label of a slice tells what its author had read. */
  ghost predicate SpecOk(s: State, name: SliceName)
    requires name < |s.specs| && name < |s.authors|
  {
    var a := s.authors[name];
    && ReadOk(s.log, a.env, a.version)
    && s.specs[name].uuid == a.env.uuid
    && s.specs[name].generation == s.log.versions[a.version].generation
    && s.specs[name].attempt == s.log.versions[a.version].current.value.attempts
  }

  /** A synthesis refers to slices that executors of that synthesis created. */
  ghost predicate RefsOk(s: State, syn: Option<Synthesis>) {
    syn.Some? ==> forall name <- syn.value.slices ::
      && name < |s.specs| && name < |s.authors|
      && s.specs[name].uuid == syn.value.uuid
      && (syn.value.attempts == 0 || syn.value.attempts <= s.authors[name].env.attempt)
  }

  ghost predicate Origins(s: State) {
    && Inv(s.log)
    && |s.authors| == |s.specs|
    && (forall x <- s.executors :: ExecutorOk(s, x))
    && (forall name :: 0 <= name < |s.specs| ==> SpecOk(s, name))
    && (forall name <- s.stored :: name < |s.specs|)
    && (!Newest(s.log).deleting ==> RefsOk(s, Newest(s.log).current) && RefsOk(s, Newest(s.log).previous))
  }

  /** What later states keep. */
  ghost predicate Extends(s: State, t: State) {
    && s.log.versions <= t.log.versions
    && s.log.issued <= t.log.issued
    && s.specs <= t.specs
    && s.authors <= t.authors
    && s.recorded <= t.recorded
  }

  lemma ServeExtends(h: Log, r: Request)
    requires h.versions != []
    ensures h.versions <= Serve(h, r).versions && h.issued <= Serve(h, r).issued
  {
  }

  lemma NextExtends(s: State, ev: Event)
    requires s.log.versions != []
    ensures Extends(s, NextState(s, ev))
  {
    if ev.Write? { ServeExtends(s.log, ev.request); }
    if ev.Finish? && ev.e < |s.executors| { ServeExtends(s.log, CommitRequest(s.executors[ev.e], ev)); }
  }

  /** The request behind a step of the log. */
  lemma LogRequest(s: State, ev: Event) returns (r: Request)
    requires s.log.versions != [] && NextState(s, ev).log != s.log
    ensures NextState(s, ev).log == Serve(s.log, r) && Outcome(s.log, r) == Some(Newest(NextState(s, ev).log))
    ensures Rewrite(Newest(s.log), r.action, s.log.issued + 1) == Outcome(s.log, r)
    ensures ev.Write? || ev.Finish?
    ensures ev.Write? ==> r == ev.request && !r.action.Commit?
    ensures ev.Finish? ==> ev.e < |s.executors| && Planned(s.executors[ev.e]) && r == CommitRequest(s.executors[ev.e], ev)
    ensures NextState(s, ev).done == if ev.Finish? && !HasError(ev.results) then s.done + [s.executors[ev.e]] else s.done
  {
    r := if ev.Write? then ev.request else CommitRequest(s.executors[ev.e], ev);
    NextRewrites(Newest(s.log), r.action, s.log.issued + 1);
  }

  lemma ExecutorOkExtends(s: State, t: State, x: Executor)
    requires Extends(s, t) && ExecutorOk(s, x)
    ensures ExecutorOk(t, x)
  {
    if x.plan.Some? {
      forall k | 0 <= k < |x.refs| ensures RefOk(t, x, k) {
        assert RefOk(s, x, k);
      }
    }
  }

  lemma SpecOkExtends(s: State, t: State, name: SliceName)
    requires Extends(s, t) && name < |s.specs| && name < |s.authors| && SpecOk(s, name)
    ensures SpecOk(t, name)
  {
  }

  /** The label that the executor's plan carries. */
  lemma PlanLabels(s: State, x: Executor, k: nat)
    requires ExecutorOk(s, x) && x.plan.Some? && k < |x.plan.value|
    ensures var c := s.log.versions[x.read.value];
            && x.plan.value[k].uuid == x.env.uuid
            && x.plan.value[k].generation == c.generation
            && x.plan.value[k].attempt == c.current.value.attempts
  {
  }

  predicate SameLabel(s: Synthesis, t: Synthesis) {
    s.uuid == t.uuid && s.slices == t.slices && s.attempts == t.attempts
  }

  /** Without a commit, references come from the version before. */
  lemma StepSources(c: Composition, a: Action, d: Composition, issued: Uuid)
    requires Good(c, issued) && Rewrite(c, a, issued + 1) == Some(d) && !a.Commit? && !d.deleting
    ensures !c.deleting && (d.previous == c.previous || d.previous == c.current)
    ensures d.current.Some? ==> d.current.value.slices == [] || (c.current.Some? && SameLabel(c.current.value, d.current.value))
  {
    if !Touches(a) {
      QuietStep(c, a, d, issued + 1);
    } else {
      LoudSources(c, a, d, issued);
    }
  }

  lemma LoudSources(c: Composition, a: Action, d: Composition, issued: Uuid)
    requires Good(c, issued) && Rewrite(c, a, issued + 1) == Some(d) && Touches(a) && !a.Commit? && !d.deleting
    ensures !c.deleting && (d.previous == c.previous || d.previous == c.current)
    ensures d.current.Some? ==> d.current.value.slices == [] || (c.current.Some? && SameLabel(c.current.value, d.current.value))
  {
  }

  lemma CommitSources(c: Composition, a: Action, d: Composition, issued: Uuid)
    requires Good(c, issued) && Rewrite(c, a, issued + 1) == Some(d) && a.Commit?
    ensures d.deleting == c.deleting && d.previous == c.previous && d.current.Some?
    ensures var s := d.current.value;
            s.slices == a.output.slices && s.uuid == a.env.uuid && (s.attempts == 0 || s.attempts <= a.env.attempt)
  {
  }

  /** Composition writes keep the references in order. */
  lemma StepRefs(s: State, c: Composition, a: Action, d: Composition, issued: Uuid)
    requires Good(c, issued) && Rewrite(c, a, issued + 1) == Some(d)
    requires !c.deleting ==> RefsOk(s, c.current) && RefsOk(s, c.previous)
    requires a.Commit? ==> forall name <- a.output.slices ::
               name < |s.specs| && name < |s.authors| && s.specs[name].uuid == a.env.uuid && s.authors[name].env == a.env
    ensures !d.deleting ==> RefsOk(s, d.current) && RefsOk(s, d.previous)
  {
    if a.Commit? {
      CommitSources(c, a, d, issued);
    } else if !d.deleting {
      StepSources(c, a, d, issued);
    }
  }

  lemma RefsOkExtends(s: State, t: State, syn: Option<Synthesis>)
    requires Extends(s, t) && RefsOk(s, syn)
    ensures RefsOk(t, syn)
  {
  }

  lemma LogStepKeepsOrigins(s: State, r: Request, t: State)
    requires Origins(s) && t.log == Serve(s.log, r)
    requires t.specs == s.specs && t.authors == s.authors && t.executors == s.executors && t.stored == s.stored && t.recorded == s.recorded
    requires r.action.Commit? ==> forall name <- r.action.output.slices ::
               name < |s.specs| && s.specs[name].uuid == r.action.env.uuid && s.authors[name].env == r.action.env
    ensures Origins(t)
  {
    ServeKeepsInv(s.log, r);
    ServeExtends(s.log, r);
    forall x <- t.executors ensures ExecutorOk(t, x) { ExecutorOkExtends(s, t, x); }
    forall name | 0 <= name < |t.specs| ensures SpecOk(t, name) { SpecOkExtends(s, t, name); }
    if Outcome(s.log, r).Some? {
      assert Good(Newest(s.log), s.log.issued);
      NextRewrites(Newest(s.log), r.action, s.log.issued + 1);
      StepRefs(s, Newest(s.log), r.action, Outcome(s.log, r).value, s.log.issued);
      assert Newest(t.log) == Outcome(s.log, r).value;
    } else {
      assert t.log == s.log;
    }
    if !Newest(t.log).deleting {
      RefsOkExtends(s, t, Newest(t.log).current);
      RefsOkExtends(s, t, Newest(t.log).previous);
    }
  }

  /** Steps that leave the log alone. */
  lemma QuietStepKeepsOrigins(s: State, t: State)
    requires Origins(s) && Extends(s, t) && t.log == s.log && |t.specs| == |t.authors|
    requires forall x <- t.executors :: x in s.executors || ExecutorOk(t, x)
    requires forall name :: |s.specs| <= name < |t.specs| ==> SpecOk(t, name)
    requires forall name <- t.stored :: name < |t.specs|
    ensures Origins(t)
  {
    forall x <- t.executors ensures ExecutorOk(t, x) {
      if x in s.executors { ExecutorOkExtends(s, t, x); }
    }
    forall name | 0 <= name < |t.specs| ensures SpecOk(t, name) {
      if name < |s.specs| { SpecOkExtends(s, t, name); }
    }
    if !Newest(t.log).deleting {
      RefsOkExtends(s, t, Newest(t.log).current);
      RefsOkExtends(s, t, Newest(t.log).previous);
    }
  }

  lemma CreatePodOk(s: State, base: nat)
    requires Origins(s)
    ensures forall x <- AfterCreatePod(s, base).executors :: x in s.executors || ExecutorOk(AfterCreatePod(s, base), x)
  {
    if base < |s.log.versions| {
      assert Good(s.log.versions[base], s.log.issued);
    }
  }

  /** The new slice carries the label of its executor's read. */
  lemma NewSliceOk(s: State, e: nat)
    requires Origins(s) && AfterCreateSlice(s, e) != s
    ensures var t := AfterCreateSlice(s, e); |t.specs| == |t.authors| == |s.specs| + 1 && SpecOk(t, |s.specs|)
  {
    var x := s.executors[e];
    assert x in s.executors && ExecutorOk(s, x);
    PlanLabels(s, x, |x.refs|);
  }

  lemma NewHolderOk(s: State, e: nat)
    requires Origins(s) && AfterCreateSlice(s, e) != s
    ensures var t := AfterCreateSlice(s, e); e < |t.executors| && ExecutorOk(t, t.executors[e])
  {
    var t := AfterCreateSlice(s, e);
    var x, y := s.executors[e], t.executors[e];
    assert x in s.executors && ExecutorOk(s, x);
    forall k | 0 <= k < |y.refs| ensures RefOk(t, y, k) {
      if k < |x.refs| { assert RefOk(s, x, k); }
    }
  }

  lemma CreateSliceOk(s: State, e: nat)
    requires Origins(s)
    ensures var t := AfterCreateSlice(s, e);
            && (forall x <- t.executors :: x in s.executors || ExecutorOk(t, x))
            && (forall name :: |s.specs| <= name < |t.specs| ==> SpecOk(t, name))
  {
    if AfterCreateSlice(s, e) != s {
      NewSliceOk(s, e);
      NewHolderOk(s, e);
    }
  }

  lemma ExecutorStepOk(s: State, ev: Event)
    requires Origins(s) && (ev.Read? || ev.Fetch? || ev.Synthesize?)
    ensures forall x <- NextState(s, ev).executors :: x in s.executors || ExecutorOk(NextState(s, ev), x)
  {
    var t := NextState(s, ev);
    if ev.e < |s.executors| {
      assert s.executors[ev.e] in s.executors;
    }
  }

  lemma FinishOk(s: State, ev: Event)
    requires Origins(s) && ev.Finish? && ev.e < |s.executors| && Planned(s.executors[ev.e])
    ensures var x := s.executors[ev.e];
            forall name <- x.refs :: name < |s.specs| && s.specs[name].uuid == x.env.uuid && s.authors[name].env == x.env
  {
    var x := s.executors[ev.e];
    assert x in s.executors;
    forall name <- x.refs ensures name < |s.specs| && s.specs[name].uuid == x.env.uuid && s.authors[name].env == x.env {
      var k :| 0 <= k < |x.refs| && x.refs[k] == name;
      assert RefOk(s, x, k);
      PlanLabels(s, x, k);
    }
  }

  lemma NextKeepsOrigins(s: State, ev: Event)
    requires Origins(s)
    ensures Origins(NextState(s, ev))
  {
    var t := NextState(s, ev);
    NextExtends(s, ev);
    match ev
    case Write(r) => if !r.action.Commit? { LogStepKeepsOrigins(s, r, t); }
    case Finish(e, _, _, _, _, _) =>
      if t != s {
        FinishOk(s, ev);
        LogStepKeepsOrigins(s, CommitRequest(s.executors[e], ev), t);
      }
    case CreatePod(base) => CreatePodOk(s, base); QuietStepKeepsOrigins(s, t);
    case CreateSlice(e) => CreateSliceOk(s, e); QuietStepKeepsOrigins(s, t);
    case Read(_, _) => ExecutorStepOk(s, ev); QuietStepKeepsOrigins(s, t);
    case Fetch(_) => ExecutorStepOk(s, ev); QuietStepKeepsOrigins(s, t);
    case Synthesize(_, _) => ExecutorStepOk(s, ev); QuietStepKeepsOrigins(s, t);
    case RecordStatus(_, _) => QuietStepKeepsOrigins(s, t);
    case Condemn(_) => QuietStepKeepsOrigins(s, t);
    case Delete(_) => QuietStepKeepsOrigins(s, t);
    case Release(_) => QuietStepKeepsOrigins(s, t);
  }

  lemma {:induction false} ExecuteKeepsOrigins(c: Composition, events: seq<Event>)
    requires Initial(c)
    ensures Origins(Execute(c, events))
  {
    if events != [] {
      ExecuteKeepsOrigins(c, events[..|events| - 1]);
      NextKeepsOrigins(Execute(c, events[..|events| - 1]), events[|events| - 1]);
    }
  }
}
