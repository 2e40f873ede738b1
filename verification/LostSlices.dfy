/** Runs in which a slice is lost: why the theorems ask that an executor reads its own attempt, and that
    the attempt counter is not lowered. */
module LostSlices {
  import opened Api
  import opened Lifecycle
  import opened History
  import opened SliceCleanup
  import opened SynthesisRuns
  import opened CollectionSafety
  import opened NoOrphans
  import opened Orphaning

  const OBJECT := Slicing.Object(ResourceRef("a", "b", "ConfigMap", ""), false, 10, true)

  /** One attempt is on record. */
  function Opening(): seq<Event> {
    [Write(Request(0, Swap(Synthesizer(1, []), 0))), Write(Request(1, Action.Dispatch)), Write(Request(2, RecordAttempt(1, 1, 0)))]
  }

  /** A pod of the first or the second attempt; its executor reads the composition as of now. */
  function Working(attempt: nat): seq<Event>
    requires 1 <= attempt <= 2
  {
    [CreatePod(attempt + 1), Read(0, 3), Synthesize(0, [OBJECT]), CreateSlice(0)]
  }

  function Retry(): Event {
    Write(Request(3, RecordAttempt(1, 2, 0)))
  }

  /** The attempt counter is lowered by a worker whose read goes back to before the first attempt. */
  function Lower(): Event {
    Write(Request(2, RecordAttempt(1, 1, 0)))
  }

  function Store(base: nat): Event {
    Finish(0, base, [], [], 1, 0)
  }

  function Opened(c: Composition): Log {
    var v1 := Swapped(c, 0);
    var v2 := Dispatched(v1, 1);
    Log([c, v1, v2, AttemptRecorded(v2, 1, 0)], [Swap(Synthesizer(1, []), 0), Action.Dispatch, RecordAttempt(1, 1, 0)], 1)
  }

  lemma FirstSwap(c: Composition)
    requires Initial(c) && c.bindings == []
    ensures Next(c, Swap(Synthesizer(1, []), 0), 1) == Some(Swapped(c, 0))
  {
  }

  lemma FirstDispatch(c: Composition)
    ensures Next(Swapped(c, 0), Action.Dispatch, 1) == Some(Dispatched(Swapped(c, 0), 1))
  {
  }

  lemma RecordFirst(c: Composition, attempts: nat)
    requires Active(c) && c.current.value.uuid == 1
    ensures Next(c, RecordAttempt(1, attempts, 0), 2) == Some(AttemptRecorded(c, attempts, 0))
  {
  }

  lemma ServeNewest(h: Log, a: Action, d: Composition)
    requires h.versions != [] && Next(Newest(h), a, h.issued + 1) == Some(d) && FromItsBase(Newest(h), a)
    ensures Serve(h, Request(|h.versions| - 1, a)) == Append(h, a, d)
  {
  }

  /** A write computed from the newest version. */
  lemma WriteStep(s: State, a: Action, d: Composition)
    requires s.log.versions != [] && Next(Newest(s.log), a, s.log.issued + 1) == Some(d)
    requires !a.Commit? && FromItsBase(Newest(s.log), a)
    ensures NextState(s, Write(Request(|s.log.versions| - 1, a))) == s.(log := Append(s.log, a, d))
  {
    ServeNewest(s.log, a, d);
  }

  /** The state after the first `k` writes. */
  function Stage(c: Composition, k: nat): State
    requires k <= 3
  {
    Begin(c).(log := Log(Opened(c).versions[..k + 1], Opened(c).writes[..k], if k < 2 then 0 else 1))
  }

  lemma StageStep(c: Composition, k: nat)
    requires Initial(c) && c.bindings == [] && k < 3
    ensures NextState(Stage(c, k), Opening()[k]) == Stage(c, k + 1)
  {
    var v, w, s := Opened(c).versions, Opened(c).writes, Stage(c, k);
    FirstSwap(c);
    FirstDispatch(c);
    RecordFirst(v[2], 1);
    assert Newest(s.log) == v[k];
    WriteStep(s, w[k], v[k + 1]);
    assert v[..k + 1] + [v[k + 1]] == v[..k + 2];
    assert w[..k] + [w[k]] == w[..k + 1];
  }

  lemma ExecutePrefix(c: Composition, events: seq<Event>, k: nat)
    requires k < |events|
    ensures Execute(c, events[..k + 1]) == NextState(Execute(c, events[..k]), events[k])
  {
    assert events[..k + 1][..k] == events[..k];
  }

  lemma FirstStage(c: Composition)
    ensures Execute(c, Opening()[..0]) == Stage(c, 0)
  {
    assert Opening()[..0] == [];
    assert Opened(c).versions[..1] == [c] && Opened(c).writes[..0] == [];
  }

  lemma {:induction false} AfterStages(c: Composition, events: seq<Event>, k: nat)
    requires Initial(c) && c.bindings == [] && k <= 3 && events == Opening()
    ensures Execute(c, events[..k]) == Stage(c, k)
  {
    if k == 0 {
      FirstStage(c);
    } else {
      AfterStages(c, events, k - 1);
      ExecutePrefix(c, events, k - 1);
      StageStep(c, k - 1);
    }
  }

  lemma AfterOpening(c: Composition)
    requires Initial(c) && c.bindings == []
    ensures Execute(c, Opening()) == Begin(c).(log := Opened(c))
  {
    AfterStages(c, Opening(), 3);
    assert Opening()[..3] == Opening();
    assert Opened(c).versions[..4] == Opened(c).versions && Opened(c).writes[..3] == Opened(c).writes;
  }

  lemma OneSlice(c: Composition)
    requires c.current.Some?
    ensures Slicing.AllAligned(Present([]))
    ensures Slicing.Sliced(c, Present([]), [OBJECT], MAX_SLICE_BYTES) ==
            [SliceSpec(c.generation, c.current.value.uuid, c.current.value.attempts, [Slicing.Encode(OBJECT)])]
  {
    var m := Slicing.Encode(OBJECT);
    assert Slicing.Manifests([OBJECT], []) == [m];
    assert [m][..0] == [];
    assert Slicing.Pack([m], MAX_SLICE_BYTES) == [[m]];
  }

  function Starting(attempt: nat): Executor {
    Executor(Env(1, attempt), None, [], [], None, [])
  }

  lemma StartOnce(s: State, c: Composition, attempt: nat)
    requires Initial(c) && s == Begin(c).(log := Opened(c)) && 1 <= attempt <= 2
    ensures NextState(s, CreatePod(attempt + 1)) == s.(executors := [Starting(attempt)])
  {
    assert s.executors + [Starting(attempt)] == [Starting(attempt)];
  }

  lemma ReadOnce(s: State, c: Composition, attempt: nat)
    requires Initial(c) && s.log == Opened(c) && s.executors == [Starting(attempt)] && 1 <= attempt
    ensures NextState(s, Read(0, 3)) == s.(executors := [Starting(attempt).(read := Some(3))])
  {
  }

  lemma ExecuteStep(c: Composition, before: seq<Event>, events: seq<Event>, k: nat)
    requires k < |events|
    ensures Execute(c, before + events[..k + 1]) == NextState(Execute(c, before + events[..k]), events[k])
  {
    assert before + events[..k + 1] == before + events[..k] + [events[k]];
    ExecuteSnoc(c, before + events[..k], events[k]);
  }

  lemma AfterStarting(c: Composition, attempt: nat)
    requires Initial(c) && c.bindings == [] && 1 <= attempt <= 2
    ensures Execute(c, Opening() + Working(attempt)[..2]) == Begin(c).(log := Opened(c), executors := [Starting(attempt).(read := Some(3))])
  {
    var s := Begin(c).(log := Opened(c));
    AfterOpening(c);
    assert Opening() + Working(attempt)[..0] == Opening();
    StartOnce(s, c, attempt);
    ExecuteStep(c, Opening(), Working(attempt), 0);
    ReadOnce(s.(executors := [Starting(attempt)]), c, attempt);
    ExecuteStep(c, Opening(), Working(attempt), 1);
  }

  function TheSlice(c: Composition): SliceSpec {
    SliceSpec(c.generation, 1, 1, [Slicing.Encode(OBJECT)])
  }

  function Loaded(c: Composition, attempt: nat): Executor {
    Executor(Env(1, attempt), Some(3), [], [OBJECT], Some([TheSlice(c)]), [])
  }

  lemma SynthesizeOnce(s: State, c: Composition, attempt: nat)
    requires Initial(c) && s.log == Opened(c) && s.executors == [Starting(attempt).(read := Some(3))]
    ensures NextState(s, Synthesize(0, [OBJECT])) == s.(executors := [Loaded(c, attempt)])
  {
    var v := Newest(Opened(c));
    OneSlice(v);
    assert CanSlice(s.executors[0], v, [OBJECT]);
  }

  lemma AfterSlicing(c: Composition, attempt: nat)
    requires Initial(c) && c.bindings == [] && 1 <= attempt <= 2
    ensures Execute(c, Opening() + Working(attempt)[..3]) == Begin(c).(log := Opened(c), executors := [Loaded(c, attempt)])
  {
    AfterStarting(c, attempt);
    var s := Begin(c).(log := Opened(c), executors := [Starting(attempt).(read := Some(3))]);
    SynthesizeOnce(s, c, attempt);
    ExecuteStep(c, Opening(), Working(attempt), 2);
    assert Execute(c, Opening() + Working(attempt)[..3]) == NextState(s, Synthesize(0, [OBJECT]));
  }

  /** What later steps need to know: the newest version, the one slice and its executor. */
  ghost predicate Waiting(s: State, c: Composition, attempt: nat, attempts: nat)
    requires Initial(c)
  {
    && Opened(c).versions <= s.log.versions && Newest(s.log) == AttemptRecorded(Newest(Opened(c)), attempts, 0) && s.log.issued == 1
    && s.specs == [TheSlice(c)] && s.authors == [Author(Env(1, attempt), 3)]
    && s.stored == map[0 := Stored(false, [])] && s.recorded == {} && s.done == []
    && s.executors == [Loaded(c, attempt).(refs := [0])]
  }

  lemma CreateOnce(s: State, c: Composition, attempt: nat)
    requires Initial(c) && s == Begin(c).(log := Opened(c), executors := [Loaded(c, attempt)])
    ensures var t := NextState(s, CreateSlice(0)); t.log == s.log && Waiting(t, c, attempt, 1)
  {
    assert s.executors[0].refs + [0] == [0];
    assert Newest(Opened(c)) == AttemptRecorded(Newest(Opened(c)), 1, 0);
  }

  lemma AfterWorking(c: Composition, attempt: nat)
    requires Initial(c) && c.bindings == [] && 1 <= attempt <= 2
    ensures var s := Execute(c, Opening() + Working(attempt)); Waiting(s, c, attempt, 1) && |s.log.versions| == 4
  {
    AfterSlicing(c, attempt);
    CreateOnce(Begin(c).(log := Opened(c), executors := [Loaded(c, attempt)]), c, attempt);
    ExecuteStep(c, Opening(), Working(attempt), 3);
    assert Working(attempt)[..4] == Working(attempt);
  }

  /** The patch that records an attempt is accepted, whatever version its author had read. */
  lemma RecordWhileWaiting(s: State, c: Composition, attempt: nat, attempts: nat, base: nat, recorded: nat)
    requires Initial(c) && Waiting(s, c, attempt, attempts) && 2 <= base <= 3 && recorded == base - 1
    ensures var t := NextState(s, Write(Request(base, RecordAttempt(1, recorded, 0))));
            Waiting(t, c, attempt, recorded) && |t.log.versions| == |s.log.versions| + 1
  {
    var a, v, d := RecordAttempt(1, recorded, 0), Newest(s.log), AttemptRecorded(Newest(Opened(c)), recorded, 0);
    RecordFirst(v, recorded);
    assert s.log.versions[base] == Opened(c).versions[base];
    assert FromItsBase(s.log.versions[base], a);
    assert Outcome(s.log, Request(base, a)) == Some(d);
    assert Serve(s.log, Request(base, a)) == Append(s.log, a, d);
  }

  lemma StoreWhileWaiting(s: State, c: Composition, attempt: nat, attempts: nat)
    requires Initial(c) && Waiting(s, c, attempt, attempts) && attempts <= attempt
    ensures var t, d := NextState(s, Store(|s.log.versions| - 1)), Committed(Newest(s.log), Output([0], [], [], 1), 0);
            && t.log.versions == s.log.versions + [d] && t.log.issued == 1
            && t == s.(log := t.log, done := s.executors)
  {
    var ev, d := Store(|s.log.versions| - 1), Committed(Newest(s.log), Output([0], [], [], 1), 0);
    var r := CommitRequest(s.executors[0], ev);
    assert Next(Newest(s.log), r.action, 2) == Some(d);
    assert Outcome(s.log, r) == Some(d);
  }

  lemma AfterRetry(c: Composition, attempt: nat)
    requires Initial(c) && c.bindings == [] && 1 <= attempt <= 2
    ensures var s := Execute(c, Opening() + Working(attempt) + [Retry()]); Waiting(s, c, attempt, 2) && |s.log.versions| == 5
  {
    var b := Opening() + Working(attempt);
    AfterWorking(c, attempt);
    RecordWhileWaiting(Execute(c, b), c, attempt, 1, 3, 2);
    ExecuteSnoc(c, b, Retry());
  }

  lemma AfterLowering(c: Composition)
    requires Initial(c) && c.bindings == []
    ensures var s := Execute(c, Opening() + Working(1) + [Retry()] + [Lower()]); Waiting(s, c, 1, 1) && |s.log.versions| == 6
  {
    var b := Opening() + Working(1) + [Retry()];
    AfterRetry(c, 1);
    RecordWhileWaiting(Execute(c, b), c, 1, 2, 2, 1);
    ExecuteSnoc(c, b, Lower());
  }

  // ---------- An executor that reads too early ----------

  function EarlyRead(): seq<Event> {
    Opening() + Working(2) + [Retry()]
  }

  /** The version that refers to the lost slice. */
  function Committing(c: Composition): Composition
    requires Initial(c)
  {
    Committed(AttemptRecorded(Newest(Opened(c)), 2, 0), Output([0], [], [], 1), 0)
  }

  lemma AfterStoring(c: Composition)
    requires Initial(c) && c.bindings == []
    ensures var s := Execute(c, EarlyRead() + [Store(4)]); s.specs == [TheSlice(c)] && Newest(s.log) == Committing(c)
  {
    AfterRetry(c, 2);
    StoreWhileWaiting(Execute(c, EarlyRead()), c, 2, 2);
    ExecuteSnoc(c, EarlyRead(), Store(4));
  }

  /** Without the hypothesis on the executor's read: the executor of the second attempt holds a slice
      with the label of the first. The slice is chosen for deletion while nothing refers to it, then
      the executor commits it, and it is chosen although Current refers to it. */
  lemma OutrunExecutorLosesItsSlice(c: Composition)
    requires Initial(c) && c.bindings == []
    ensures var s, t := Execute(c, EarlyRead()), Execute(c, EarlyRead() + [Store(4)]);
            && |s.specs| == 1 && !Referenced(Newest(s.log), 0) && ShouldDeleteSlice(Newest(s.log), 0, s.specs[0])
            && t.specs == s.specs && References(Newest(t.log).current, 0) && !Newest(t.log).deleting
            && ShouldDeleteSlice(Newest(t.log), 0, t.specs[0])
    ensures OrderlyRun(c, EarlyRead() + [Store(4)])
  {
    AfterRetry(c, 2);
    AfterStoring(c);
    EarlyReadIsOrderly(c, [Store(4)]);
  }

  /** The worker's reads do not go back: the attempts stem from versions 2 and 3. */
  lemma EarlyReadIsOrderly(c: Composition, more: seq<Event>)
    requires forall ev <- more :: !RecordsAttempt(ev)
    ensures OrderlyRun(c, EarlyRead() + more)
  {
    var o, w := Opening(), Working(2);
    QuietStaysOrderly(c, [], o[..2]);
    assert [] + o[..2] == o[..2];
    AttemptIsOrderly(c, o[..2], o[2]);
    assert o[..2] + [o[2]] == o;
    QuietStaysOrderly(c, o, w);
    AttemptIsOrderly(c, o + w, Retry());
    QuietStaysOrderly(c, EarlyRead(), more);
  }

  lemma AttemptIsOrderly(c: Composition, events: seq<Event>, ev: Event)
    requires OrderlyRun(c, events) && RecordsAttempt(ev) && LastBase(c, events) <= ev.request.base
    ensures OrderlyRun(c, events + [ev]) && LastBase(c, events + [ev]) <= ev.request.base
  {
    assert (events + [ev])[..|events|] == events;
  }

  /** Without the hypothesis on the attempt counter: a slice is rightly chosen for deletion, then the
      counter is lowered by a worker whose reads go back, and the overtaken executor commits that
      slice after all. */
  lemma LoweredAttemptRevivesSlice(c: Composition)
    requires Initial(c) && c.bindings == []
    ensures var events := Opening() + Working(1) + [Retry()];
            var s, t := Execute(c, events), Execute(c, events + [Lower()] + [Store(5)]);
            && |s.specs| == 1 && |s.authors| == 1 && s.specs[0].attempt == s.authors[0].env.attempt
            && !Referenced(Newest(s.log), 0) && ShouldDeleteSlice(Newest(s.log), 0, s.specs[0])
            && References(Newest(t.log).current, 0)
  {
    var b := Opening() + Working(1) + [Retry()];
    AfterRetry(c, 1);
    AfterLowering(c);
    StoreWhileWaiting(Execute(c, b + [Lower()]), c, 1, 1);
    ExecuteSnoc(c, b + [Lower()], Store(5));
  }

  // ---------- The lost slice orphans its resource ----------

  /** The executor of the second attempt is outrun when it stores its result. */
  lemma EarlyReaderIsOutrun(s: State, c: Composition)
    requires Initial(c) && Waiting(s, c, 2, 2) && |s.log.versions| == 5
    ensures StoresSuccess(s, Store(4)) && Outrun(s, s.executors[0])
  {
    var r, d := CommitRequest(s.executors[0], Store(4)), Committed(Newest(s.log), Output([0], [], [], 1), 0);
    assert Next(Newest(s.log), r.action, 2) == Some(d);
    assert Outcome(s.log, r) == Some(d);
    assert s.log.versions[3] == Opened(c).versions[3];
  }

  /** A run in which a resource is orphaned, although the worker's reads do not go back: the executor of
      the second attempt reads too early, its slice is collected while Current refers to it, and the next
      synthesis finds nothing to bury. */
  lemma {:induction false} EarlyReadOrphansResource(c: Composition) returns (more: seq<Event>)
    requires Initial(c) && c.bindings == []
    ensures var events := EarlyRead() + [Store(4)] + more;
            var s := Execute(c, events);
            && OrderlyRun(c, events) && !Newest(s.log).deleting && s.done != []
            && HoldsResource(s, s.done[0], OBJECT.ref) && !AccountedFor(s, 0, OBJECT.ref)
  {
    var s := Execute(c, EarlyRead());
    ExecuteKeepsOrigins(c, EarlyRead());
    AfterRetry(c, 2);
    EarlyReaderIsOutrun(s, c);
    var t;
    more, t := LoseEverything(s, Store(4), OBJECT);
    ExecuteSnoc(c, EarlyRead(), Store(4));
    PathFromRun(c, EarlyRead() + [Store(4)], more);
    EarlyReadIsOrderly(c, [Store(4)]);
    QuietStaysOrderly(c, EarlyRead() + [Store(4)], more);
  }
}
