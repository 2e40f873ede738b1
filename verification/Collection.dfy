/** Garbage collection never takes a slice that is or will be needed. */
module CollectionSafety {
  import opened Api
  import opened Lifecycle
  import opened History
  import opened Pacing
  import opened SliceCleanup
  import opened SynthesisRuns

  // ---------- What is referenced ----------

  /** While the composition is not deleting, no slice of Previous is chosen for deletion. */
  lemma {:induction false} PreviousIsNeverCollected(c: Composition, events: seq<Event>, name: SliceName)
    requires Initial(c)
    requires var v := Newest(Execute(c, events).log); !v.deleting && References(v.previous, name)
    ensures var s := Execute(c, events);
            name < |s.specs| && !ShouldDeleteSlice(Newest(s.log), name, s.specs[name])
  {
    ExecuteKeepsOrigins(c, events);
    var s := Execute(c, events);
    assert Good(Newest(s.log), s.log.issued);
  }

  /** A slice of Current is chosen exactly when its label carries an earlier, non-zero attempt. */
  lemma {:induction false} CurrentIsCollectedExactlyWhenOutrun(c: Composition, events: seq<Event>, name: SliceName)
    requires Initial(c)
    requires var v := Newest(Execute(c, events).log); !v.deleting && References(v.current, name)
    ensures var s := Execute(c, events);
            && name < |s.specs|
            && var current, spec := Newest(s.log).current.value, s.specs[name];
               (ShouldDeleteSlice(Newest(s.log), name, spec) <==>
                  spec.generation <= current.observedGeneration && 0 < spec.attempt < current.attempts)
  {
    ExecuteKeepsOrigins(c, events);
  }

  /** So it is safe if its executor read the composition before any attempt was recorded, or after its
      own attempt was. */
  lemma {:induction false} CurrentIsNeverCollected(c: Composition, events: seq<Event>, name: SliceName)
    requires Initial(c)
    requires var v := Newest(Execute(c, events).log); !v.deleting && References(v.current, name)
    requires var s := Execute(c, events);
             && name < |s.specs| && name < |s.authors|
             && (s.specs[name].attempt == 0 || s.specs[name].attempt == s.authors[name].env.attempt)
    ensures var s := Execute(c, events); !ShouldDeleteSlice(Newest(s.log), name, s.specs[name])
  {
    ExecuteKeepsOrigins(c, events);
  }

  // ---------- What can still be committed ----------

  /** The synthesis is no longer in progress. */
  ghost predicate Retired(log: Log, uuid: Uuid) {
    && log.versions != [] && uuid != NO_UUID && uuid <= log.issued
    && var v := Newest(log);
    !(v.current.Some? && v.current.value.uuid == uuid && InProgress(v.current.value))
  }

  /** What is in progress after a step and is not new was in progress before, with the same Previous. */
  lemma {:induction false} StillInProgress(log: Log, r: Request)
    requires Inv(log)
    ensures var v, w := Newest(log), Newest(Serve(log, r));
            w.current.Some? && InProgress(w.current.value) && w.current.value.uuid != NO_UUID && w.current.value.uuid <= log.issued ==>
              && v.current.Some? && InProgress(v.current.value) && v.current.value.uuid == w.current.value.uuid
              && v.previous == w.previous
  {
    match Outcome(log, r)
    case None =>
    case Some(d) =>
      var v := Newest(log);
      assert Good(v, log.issued);
      NextRewrites(v, r.action, log.issued + 1);
      StepFollows(v, r.action, d, log.issued);
      assert Newest(Serve(log, r)) == d;
      if d.current.Some? {
        assert Holds(d, d.current.value);
      }
  }

  lemma RetiredForever(log: Log, r: Request, uuid: Uuid)
    requires Inv(log) && Retired(log, uuid)
    ensures Retired(Serve(log, r), uuid)
  {
    StillInProgress(log, r);
    ServeExtends(log, r);
  }

  /** No executor with this environment can commit. */
  ghost predicate Hopeless(log: Log, env: Env) {
    log.versions != [] && env.uuid != NO_UUID && env.uuid <= log.issued && SkipSynthesis(Newest(log), env)
  }

  lemma HopelessForever(log: Log, r: Request, env: Env)
    requires Inv(log) && Hopeless(log, env) && NotLowered(log, r)
    ensures Hopeless(Serve(log, r), env)
  {
    StillInProgress(log, r);
    ServeExtends(log, r);
    var v, w := Newest(log), Newest(Serve(log, r));
    if !SkipSynthesis(w, env) {
      if Outcome(log, r).Some? {
        assert w == Outcome(log, r).value;
        NextRewrites(v, r.action, log.issued + 1);
        StepAttempts(v, r.action, w, log.issued);
      }
    }
  }

  // ---------- Delete decisions ----------

  lemma NewReference(c: Composition, a: Action, d: Composition, drawn: Uuid, name: SliceName)
    requires Rewrite(c, a, drawn) == Some(d) && Referenced(d, name) && !Referenced(c, name)
    ensures a.Commit? && name in a.output.slices
  {
  }

  /** Some executor still holds the slice and may commit it. */
  ghost predicate Committable(s: State, name: SliceName)
    requires s.log.versions != []
  {
    exists x <- s.executors :: name in x.refs && !SkipSynthesis(Newest(s.log), x.env)
  }

  /** Who holds a slice is its author. */
  lemma HolderIsAuthor(s: State, x: Executor, name: SliceName)
    requires Origins(s) && x in s.executors && name in x.refs
    ensures name < |s.specs| && x.plan.Some? && x.read.Some?
    ensures s.authors[name].env == x.env && s.specs[name].uuid == x.env.uuid
  {
    assert ExecutorOk(s, x);
    var k :| 0 <= k < |x.refs| && x.refs[k] == name;
    assert RefOk(s, x, k);
    PlanLabels(s, x, k);
  }

  /** The only step that can bring a reference to a slice is a commit of an executor that holds it. */
  lemma {:induction false} StepKeepsUnreferenced(s: State, ev: Event, name: SliceName)
    requires Origins(s) && name < |s.specs| && !Referenced(Newest(s.log), name) && !Committable(s, name)
    ensures !Referenced(Newest(NextState(s, ev).log), name)
  {
    var t := NextState(s, ev);
    if t.log != s.log && Referenced(Newest(t.log), name) {
      var r := LogRequest(s, ev);
      NewReference(Newest(s.log), r.action, Newest(t.log), s.log.issued + 1, name);
    }
  }

  /** Only a new slice gets a new holder. */
  lemma HolderWasHolder(s: State, ev: Event, y: Executor, name: SliceName) returns (x: Executor)
    requires s.log.versions != [] && name < |s.specs| && y in NextState(s, ev).executors && name in y.refs
    ensures x in s.executors && name in x.refs && x.env == y.env
  {
    x := if y in s.executors then y else s.executors[ev.e];
  }

  /** The synthesis of the slice is over: neither referenced nor committable any more. */
  ghost predicate Doomed(s: State, name: SliceName) {
    s.log.versions != [] && name < |s.specs| && !Referenced(Newest(s.log), name) && Retired(s.log, s.specs[name].uuid)
  }

  lemma DoomedIsNotCommittable(s: State, name: SliceName)
    requires Origins(s) && Doomed(s, name)
    ensures !Committable(s, name)
  {
    forall x <- s.executors | name in x.refs ensures SkipSynthesis(Newest(s.log), x.env) {
      HolderIsAuthor(s, x, name);
    }
  }

  lemma {:induction false} DoomedStep(s: State, ev: Event, name: SliceName)
    requires Origins(s) && Doomed(s, name)
    ensures Doomed(NextState(s, ev), name)
  {
    DoomedIsNotCommittable(s, name);
    StepKeepsUnreferenced(s, ev, name);
    NextExtends(s, ev);
    if NextState(s, ev).log != s.log {
      var r := LogRequest(s, ev);
      RetiredForever(s.log, r, s.specs[name].uuid);
    }
  }

  /** Everybody who holds the slice was overtaken. */
  ghost predicate Abandoned(s: State, name: SliceName) {
    && s.log.versions != [] && name < |s.specs| && !Referenced(Newest(s.log), name)
    && forall x <- s.executors :: name in x.refs ==> Hopeless(s.log, x.env)
  }

  lemma NotCommittableIsAbandoned(s: State, name: SliceName)
    requires Origins(s) && name < |s.specs| && !Referenced(Newest(s.log), name) && !Committable(s, name)
    ensures Abandoned(s, name)
  {
    forall x <- s.executors | name in x.refs ensures Hopeless(s.log, x.env) {
      assert ExecutorOk(s, x);
    }
  }

  lemma {:induction false} AbandonedStep(s: State, ev: Event, name: SliceName)
    requires Origins(s) && Abandoned(s, name) && (ev.Write? ==> NotLowered(s.log, ev.request))
    ensures Abandoned(NextState(s, ev), name)
  {
    var t := NextState(s, ev);
    NextExtends(s, ev);
    StepKeepsUnreferenced(s, ev, name);
    forall y <- t.executors | name in y.refs ensures Hopeless(t.log, y.env) {
      var x := HolderWasHolder(s, ev, y, name);
      assert Hopeless(s.log, x.env);
      if t.log != s.log {
        var r := LogRequest(s, ev);
        HopelessForever(s.log, r, x.env);
      }
    }
  }

  /** Being from an older generation means that the slice's synthesis is over. */
  lemma OldMeansDoomed(s: State, name: SliceName)
    requires Origins(s) && name < |s.specs|
    requires Newest(s.log).current.Some? && FromOldComposition(Newest(s.log), s.specs[name]) && !Referenced(Newest(s.log), name)
    ensures Doomed(s, name)
  {
    var a, v := s.authors[name], Newest(s.log);
    assert SpecOk(s, name);
    var w := s.log.versions[a.version];
    assert Good(w, s.log.issued) && Continues(w, v);
    assert Holds(w, w.current.value) && Holds(v, v.current.value);
    assert v.current.value.uuid == a.env.uuid ==> Carries(w, v, w.current.value, v.current.value);
  }

  lemma {:induction false} DoomedForever(c: Composition, events: seq<Event>, more: seq<Event>, name: SliceName)
    requires Initial(c) && Doomed(Execute(c, events), name)
    ensures Doomed(Execute(c, events + more), name)
    decreases |more|
  {
    if more == [] {
      assert events + more == events;
    } else {
      var n := |more| - 1;
      DoomedForever(c, events, more[..n], name);
      assert events + more == events + more[..n] + [more[n]];
      ExecuteKeepsOrigins(c, events + more[..n]);
      ExecuteSnoc(c, events + more[..n], more[n]);
      DoomedStep(Execute(c, events + more[..n]), more[n], name);
    }
  }

  /** A decision to delete an unreferenced slice of an older generation stands: no later event of any
      run makes the composition refer to it. */
  lemma {:induction false} OldSliceIsNeverNeeded(c: Composition, events: seq<Event>, more: seq<Event>, name: SliceName)
    requires Initial(c)
    requires var s := Execute(c, events);
             && name < |s.specs|
             && Newest(s.log).current.Some?
             && FromOldComposition(Newest(s.log), s.specs[name])
             && !Referenced(Newest(s.log), name)
    ensures !Referenced(Newest(Execute(c, events + more).log), name)
  {
    ExecuteKeepsOrigins(c, events);
    OldMeansDoomed(Execute(c, events), name);
    DoomedForever(c, events, more, name);
  }

  ghost predicate NeverLowers(c: Composition, events: seq<Event>, more: seq<Event>) {
    more == [] ||
    var n := |more| - 1;
    && NeverLowers(c, events, more[..n])
    && (more[n].Write? ==> NotLowered(Execute(c, events + more[..n]).log, more[n].request))
  }

  lemma {:induction false} AbandonedForever(c: Composition, events: seq<Event>, more: seq<Event>, name: SliceName)
    requires Initial(c) && NeverLowers(c, events, more) && Abandoned(Execute(c, events), name)
    ensures Abandoned(Execute(c, events + more), name)
    decreases |more|
  {
    if more == [] {
      assert events + more == events;
    } else {
      var n := |more| - 1;
      AbandonedForever(c, events, more[..n], name);
      assert events + more == events + more[..n] + [more[n]];
      ExecuteKeepsOrigins(c, events + more[..n]);
      ExecuteSnoc(c, events + more[..n], more[n]);
      AbandonedStep(Execute(c, events + more[..n]), more[n], name);
    }
  }

  /** An unreferenced slice whose author was overtaken by another attempt is never referenced again,
      provided that the attempt counter is never lowered. */
  lemma {:induction false} OvertakenSliceIsNeverNeeded(c: Composition, events: seq<Event>, more: seq<Event>, name: SliceName)
    requires Initial(c) && NeverLowers(c, events, more)
    requires var s := Execute(c, events);
             && name < |s.specs| && name < |s.authors|
             && SkipSynthesis(Newest(s.log), s.authors[name].env)
             && !Referenced(Newest(s.log), name)
    ensures !Referenced(Newest(Execute(c, events + more).log), name)
  {
    ExecuteKeepsOrigins(c, events);
    var s := Execute(c, events);
    if x :| x in s.executors && name in x.refs && !SkipSynthesis(Newest(s.log), x.env) {
      HolderIsAuthor(s, x, name);
    }
    NotCommittableIsAbandoned(s, name);
    AbandonedForever(c, events, more, name);
  }

  /** A label with the author's own attempt tells that the author was overtaken. */
  lemma RetriedMeansOvertaken(s: State, name: SliceName)
    requires Origins(s) && name < |s.specs| && Newest(s.log).current.Some? && HasBeenRetried(Newest(s.log), s.specs[name])
    requires s.specs[name].attempt == s.authors[name].env.attempt
    ensures SkipSynthesis(Newest(s.log), s.authors[name].env)
  {
    assert SpecOk(s, name);
  }

  /** While nothing is in progress, nothing unreferenced can be committed any more. */
  lemma SettledMeansDoomed(s: State, name: SliceName)
    requires Origins(s) && name < |s.specs| && Newest(s.log).current.Some? && Newest(s.log).current.value.synthesized.Some?
    requires !Referenced(Newest(s.log), name)
    ensures Doomed(s, name)
  {
    var a := s.authors[name];
    assert SpecOk(s, name);
    assert Good(s.log.versions[a.version], s.log.issued);
  }

  /** Executor `e` holds the slice, may commit, and has `left` slices of its plan to create. */
  ghost predicate Holder(s: State, e: nat, name: SliceName, left: nat) {
    && s.log.versions != [] && e < |s.executors|
    && var x := s.executors[e];
    && x.plan.Some? && x.read.Some? && |x.refs| + left == |x.plan.value|
    && name in x.refs && x.env.uuid != NO_UUID && !SkipSynthesis(Newest(s.log), x.env)
  }

  lemma CreateNext(s: State, e: nat, name: SliceName, left: nat)
    requires Holder(s, e, name, left) && left > 0
    ensures Holder(NextState(s, CreateSlice(e)), e, name, left - 1)
  {
  }

  lemma FinishNow(s: State, ev: Event, name: SliceName)
    requires s.log.versions != [] && ev.Finish? && ev.e < |s.executors| && ev.base == |s.log.versions| - 1
    requires var x := s.executors[ev.e]; Planned(x) && name in x.refs && x.env.uuid != NO_UUID && !SkipSynthesis(Newest(s.log), x.env)
    ensures Referenced(Newest(NextState(s, ev).log), name)
  {
    var x := s.executors[ev.e];
    var r := CommitRequest(x, ev);
    var d := Committed(Newest(s.log), r.action.output, ev.now);
    assert Next(Newest(s.log), r.action, s.log.issued + 1) == Some(d);
    assert Outcome(s.log, r) == Some(d);
  }

  function Creations(e: nat, k: nat): (events: seq<Event>)
    ensures |events| == k && forall i :: 0 <= i < k ==> events[i] == CreateSlice(e)
  {
    seq(k, _ => CreateSlice(e))
  }

  lemma {:induction false} HolderCreates(s: State, e: nat, name: SliceName, left: nat, k: nat)
    requires Holder(s, e, name, left) && k <= left
    ensures Holder(Steps(s, Creations(e, k)), e, name, left - k)
  {
    if k == 0 {
      assert Creations(e, 0) == [];
    } else {
      HolderCreates(s, e, name, left, k - 1);
      CreateNext(Steps(s, Creations(e, k - 1)), e, name, left - (k - 1));
      assert Creations(e, k) == Creations(e, k - 1) + [CreateSlice(e)];
      StepsSnoc(s, Creations(e, k - 1), CreateSlice(e));
    }
  }

  /** The holder creates what is left of its plan and commits. */
  lemma HolderMayCommit(c: Composition, events: seq<Event>, e: nat, name: SliceName, left: nat) returns (more: seq<Event>)
    requires Holder(Execute(c, events), e, name, left)
    ensures forall ev <- more :: !ev.Write?
    ensures Referenced(Newest(Execute(c, events + more).log), name)
  {
    var s := Execute(c, events);
    HolderCreates(s, e, name, left, left);
    var t := Steps(s, Creations(e, left));
    var ev := Finish(e, |t.log.versions| - 1, [], [], 0, 0);
    FinishNow(t, ev, name);
    more := Creations(e, left) + [ev];
    StepsSnoc(s, Creations(e, left), ev);
    ExecuteSteps(c, events, more);
  }

  lemma CommittableHasHolder(s: State, name: SliceName) returns (e: nat, left: nat)
    requires Origins(s) && Committable(s, name)
    ensures Holder(s, e, name, left)
  {
    var x :| x in s.executors && name in x.refs && !SkipSynthesis(Newest(s.log), x.env);
    e :| 0 <= e < |s.executors| && s.executors[e] == x;
    HolderIsAuthor(s, x, name);
    assert ExecutorOk(s, x);
    left := |x.plan.value| - |x.refs|;
  }

  lemma {:induction false} QuietNeverLowers(c: Composition, events: seq<Event>, more: seq<Event>)
    requires forall ev <- more :: !ev.Write?
    ensures NeverLowers(c, events, more)
  {
    if more != [] {
      QuietNeverLowers(c, events, more[..|more| - 1]);
      assert more[|more| - 1] in more;
    }
  }

  /** No continuation that does not lower the counter makes the composition refer to the slice. */
  ghost predicate Stands(c: Composition, events: seq<Event>, name: SliceName) {
    forall more :: NeverLowers(c, events, more) ==> !Referenced(Newest(Execute(c, events + more).log), name)
  }

  /** An unreferenced slice is never needed again if and only if no executor holds it that could commit
      it at once. */
  lemma {:induction false} NeverNeededExactly(c: Composition, events: seq<Event>, name: SliceName)
    requires Initial(c) && name < |Execute(c, events).specs| && !Referenced(Newest(Execute(c, events).log), name)
    ensures Stands(c, events, name) <==> !Committable(Execute(c, events), name)
  {
    var s := Execute(c, events);
    ExecuteKeepsOrigins(c, events);
    if Committable(s, name) {
      var e, left := CommittableHasHolder(s, name);
      var more := HolderMayCommit(c, events, e, name, left);
      QuietNeverLowers(c, events, more);
    } else {
      NotCommittableIsAbandoned(s, name);
      forall more | NeverLowers(c, events, more) ensures !Referenced(Newest(Execute(c, events + more).log), name) {
        AbandonedForever(c, events, more, name);
      }
    }
  }

  /** When an executor holds the slice that was neither overtaken nor finished: it must have read the
      composition before its own attempt was recorded, and the decision must be a retry. */
  ghost predicate ReadTooEarly(s: State, name: SliceName)
    requires s.log.versions != [] && name < |s.specs| && name < |s.authors|
  {
    && (exists x <- s.executors :: name in x.refs)
    && !SkipSynthesis(Newest(s.log), s.authors[name].env)
    && 0 < s.specs[name].attempt < s.authors[name].env.attempt
  }

  /** A decision to delete an unreferenced slice stands if and only if not its author read too early,
      still holds the slice and was not overtaken since. */
  lemma {:induction false} DeleteDecisionStands(c: Composition, events: seq<Event>, name: SliceName)
    requires Initial(c)
    requires var s := Execute(c, events);
             name < |s.specs| && ShouldDeleteSlice(Newest(s.log), name, s.specs[name]) && !Referenced(Newest(s.log), name)
    ensures name < |Execute(c, events).authors|
    ensures Stands(c, events, name) <==> !ReadTooEarly(Execute(c, events), name)
  {
    ExecuteKeepsOrigins(c, events);
    NeverNeededExactly(c, events, name);
    DecisionReason(Execute(c, events), name);
  }

  lemma DecisionReason(s: State, name: SliceName)
    requires Origins(s) && name < |s.specs| && ShouldDeleteSlice(Newest(s.log), name, s.specs[name]) && !Referenced(Newest(s.log), name)
    ensures Committable(s, name) <==> ReadTooEarly(s, name)
  {
    if FromOldComposition(Newest(s.log), s.specs[name]) {
      OldMeansDoomed(s, name);
    } else if Newest(s.log).current.value.synthesized.Some? {
      SettledMeansDoomed(s, name);
    }
    if Doomed(s, name) {
      DoomedIsNotCommittable(s, name);
    }
    assert SpecOk(s, name);
    if x :| x in s.executors && name in x.refs {
      HolderIsAuthor(s, x, name);
    }
    if Committable(s, name) {
      var x :| x in s.executors && name in x.refs && !SkipSynthesis(Newest(s.log), x.env);
      HolderIsAuthor(s, x, name);
    }
  }

  // ---------- While the worker's reads do not go back ----------

  /** The version behind the last recorded attempt. */
  function LastBase(c: Composition, events: seq<Event>): nat {
    if events == [] then 0
    else
      var before, ev := events[..|events| - 1], events[|events| - 1];
      if ev.Write? then NextBase(Execute(c, before).log, ev.request, LastBase(c, before)) else LastBase(c, before)
  }

  /** The worker that records attempts never reads an older version than before. */
  predicate OrderlyRun(c: Composition, events: seq<Event>) {
    events == [] ||
    var before, ev := events[..|events| - 1], events[|events| - 1];
    && OrderlyRun(c, before)
    && (ev.Write? ==> ReadsForward(Execute(c, before).log, ev.request, LastBase(c, before)))
  }

  /** The log moves by a request that is not about attempts, or by the event's own. */
  lemma StepKeepsPaced(s: State, ev: Event, last: nat)
    requires Origins(s) && Paced(s.log, last) && (ev.Write? ==> ReadsForward(s.log, ev.request, last))
    ensures Paced(NextState(s, ev).log, if ev.Write? then NextBase(s.log, ev.request, last) else last)
    ensures ev.Write? ==> NotLowered(s.log, ev.request)
  {
    if ev.Write? {
      ServeKeepsPaced(s.log, ev.request, last);
    } else if NextState(s, ev).log != s.log {
      var r := LogRequest(s, ev);
      ServeKeepsPaced(s.log, r, last);
    }
  }

  lemma {:induction false} OrderlyIsPaced(c: Composition, events: seq<Event>)
    requires Initial(c) && OrderlyRun(c, events)
    ensures Paced(Execute(c, events).log, LastBase(c, events))
  {
    if events != [] {
      var before := events[..|events| - 1];
      OrderlyIsPaced(c, before);
      ExecuteKeepsOrigins(c, before);
      StepKeepsPaced(Execute(c, before), events[|events| - 1], LastBase(c, before));
    }
  }

  /** The hypothesis on the counter, discharged. */
  lemma {:induction false} OrderlyNeverLowers(c: Composition, events: seq<Event>, more: seq<Event>)
    requires Initial(c) && OrderlyRun(c, events + more)
    ensures NeverLowers(c, events, more)
    decreases |more|
  {
    if more != [] {
      var n := |more| - 1;
      var before := events + more[..n];
      assert (events + more)[..|events + more| - 1] == before;
      OrderlyNeverLowers(c, events, more[..n]);
      OrderlyIsPaced(c, before);
      ExecuteKeepsOrigins(c, before);
      StepKeepsPaced(Execute(c, before), more[n], LastBase(c, before));
    }
  }

  predicate RecordsAttempt(ev: Event) {
    ev.Write? && ev.request.action.RecordAttempt?
  }

  lemma {:induction false} QuietStaysOrderly(c: Composition, events: seq<Event>, more: seq<Event>)
    requires OrderlyRun(c, events) && forall ev <- more :: !RecordsAttempt(ev)
    ensures OrderlyRun(c, events + more) && LastBase(c, events + more) == LastBase(c, events)
  {
    if more == [] {
      assert events + more == events;
    } else {
      var n := |more| - 1;
      assert (events + more)[..|events + more| - 1] == events + more[..n];
      assert more[n] in more;
      QuietStaysOrderly(c, events, more[..n]);
    }
  }

  /** No orderly continuation makes the composition refer to the slice. */
  ghost predicate StandsInOrder(c: Composition, events: seq<Event>, name: SliceName) {
    forall more :: OrderlyRun(c, events + more) ==> !Referenced(Newest(Execute(c, events + more).log), name)
  }

  /** The same without a word about the counter, for runs in which the worker's reads do not go back. */
  lemma {:induction false} DeleteDecisionStandsInOrder(c: Composition, events: seq<Event>, name: SliceName)
    requires Initial(c) && OrderlyRun(c, events)
    requires var s := Execute(c, events);
             name < |s.specs| && ShouldDeleteSlice(Newest(s.log), name, s.specs[name]) && !Referenced(Newest(s.log), name)
    ensures name < |Execute(c, events).authors|
    ensures StandsInOrder(c, events, name) <==> !ReadTooEarly(Execute(c, events), name)
  {
    ExecuteKeepsOrigins(c, events);
    var s := Execute(c, events);
    DecisionReason(s, name);
    if Committable(s, name) {
      var e, left := CommittableHasHolder(s, name);
      var more := HolderMayCommit(c, events, e, name, left);
      QuietStaysOrderly(c, events, more);
    } else {
      NotCommittableIsAbandoned(s, name);
      forall more | OrderlyRun(c, events + more) ensures !Referenced(Newest(Execute(c, events + more).log), name) {
        OrderlyNeverLowers(c, events, more);
        AbandonedForever(c, events, more, name);
      }
    }
  }
}
