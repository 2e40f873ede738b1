/** Runs that show where the deletion protocol goes as far as its bounds allow. */
module DeletionRuns {
  import opened Api
  import opened Lifecycle
  import Aggregation
  import opened History
  import opened Deletion

  // ---------- A run as the list of its versions ----------

  function Issued(writes: seq<Action>): Uuid {
    if writes == [] then 0 else Issued(writes[..|writes| - 1]) + if DrawsUuid(writes[|writes| - 1]) then 1 else 0
  }

  /** Each write is computed from the version before it and accepted. */
  function Requests(writes: seq<Action>): (requests: seq<Request>)
    ensures |requests| == |writes| && forall i :: 0 <= i < |writes| ==> requests[i] == Request(i, writes[i])
  {
    seq(|writes|, i requires 0 <= i < |writes| => Request(i, writes[i]))
  }

  ghost predicate Told(versions: seq<Composition>, writes: seq<Action>) {
    && |versions| == |writes| + 1
    && forall i :: 0 <= i < |writes| ==> StepTold(versions, writes, i)
  }

  ghost predicate StepTold(versions: seq<Composition>, writes: seq<Action>, i: nat)
    requires |versions| == |writes| + 1 && i < |writes|
  {
    !writes[i].RecordAttempt? && Next(versions[i], writes[i], Issued(writes[..i]) + 1) == Some(versions[i + 1])
  }

  lemma ServeNewest(h: Log, a: Action, d: Composition)
    requires h.versions != [] && !a.RecordAttempt? && Next(Newest(h), a, h.issued + 1) == Some(d)
    ensures Serve(h, Request(|h.versions| - 1, a)) == Append(h, a, d)
  {
  }

  lemma RunNext(c: Composition, requests: seq<Request>, n: nat)
    requires n < |requests|
    ensures Run(c, requests[..n + 1]) == Serve(Run(c, requests[..n]), requests[n])
  {
    assert requests[..n + 1][..n] == requests[..n];
  }

  function LogAt(versions: seq<Composition>, writes: seq<Action>, n: nat): Log
    requires |versions| == |writes| + 1 && n <= |writes|
  {
    Log(versions[..n + 1], writes[..n], Issued(writes[..n]))
  }

  lemma ToldStep(versions: seq<Composition>, writes: seq<Action>, n: nat)
    requires |versions| == |writes| + 1 && n < |writes| && StepTold(versions, writes, n)
    ensures Serve(LogAt(versions, writes, n), Request(n, writes[n])) == LogAt(versions, writes, n + 1)
  {
    var h := LogAt(versions, writes, n);
    assert Newest(h) == versions[n];
    ServeNewest(h, writes[n], versions[n + 1]);
    IssuedNext(writes, n);
    assert versions[..n + 2] == h.versions + [versions[n + 1]] && writes[..n + 1] == h.writes + [writes[n]];
  }

  lemma {:induction false} ToldIsRun(versions: seq<Composition>, writes: seq<Action>, n: nat)
    requires Told(versions, writes) && n <= |writes|
    ensures Run(versions[0], Requests(writes)[..n]) == LogAt(versions, writes, n)
  {
    if n == 0 {
      assert Requests(writes)[..0] == [] && versions[..1] == [versions[0]] && writes[..0] == [];
    } else {
      ToldIsRun(versions, writes, n - 1);
      RunNext(versions[0], Requests(writes), n - 1);
      ToldStep(versions, writes, n - 1);
    }
  }

  lemma ToldRun(versions: seq<Composition>, writes: seq<Action>)
    requires Told(versions, writes)
    ensures Run(versions[0], Requests(writes)) == Log(versions, writes, Issued(writes))
  {
    var n := |writes|;
    ToldIsRun(versions, writes, n);
    assert Requests(writes)[..n] == Requests(writes) && versions[..n + 1] == versions && writes[..n] == writes;
  }

  /** How many UUIDs the first writes draw: the second is a dispatch, the next draw is the mark. */
  lemma IssuedNext(writes: seq<Action>, i: nat)
    requires i < |writes|
    ensures Issued(writes[..i + 1]) == Issued(writes[..i]) + if DrawsUuid(writes[i]) then 1 else 0
  {
    assert writes[..i + 1][..i] == writes[..i];
  }

  predicate Plain(c: Composition) {
    Initial(c) && c.bindings == [] && !c.ignoreSideEffects && c.finalizer
  }

  const SYNTH := Synthesizer(1, [])

  /** The first synthesis, with this result. */
  function Synthesized(c: Composition, slices: seq<SliceName>, results: seq<Result>): Composition {
    Committed(Dispatched(Swapped(c, 0), 1), Output(slices, results, [], 1), 0)
  }

  function Opening(slices: seq<SliceName>, results: seq<Result>): seq<Action> {
    [Swap(SYNTH, 0), Dispatch, Commit(Env(1, 1), Output(slices, results, [], 1), 0)]
  }

  lemma OpeningSteps(c: Composition, slices: seq<SliceName>, results: seq<Result>)
    requires Plain(c)
    ensures Next(c, Swap(SYNTH, 0), 1) == Some(Swapped(c, 0))
    ensures Next(Swapped(c, 0), Dispatch, 1) == Some(Dispatched(Swapped(c, 0), 1))
    ensures Next(Dispatched(Swapped(c, 0), 1), Opening(slices, results)[2], 2) == Some(Synthesized(c, slices, results))
  {
  }

  const ERROR := [Result("no", "error")]

  lemma ErrorFails(c: Composition)
    requires Plain(c)
    ensures CurrentFailed(Synthesized(c, [], ERROR))
  {
    var none: seq<Result> := [];
    assert none + ERROR == ERROR && ERROR[0].severity == "error";
  }

  // ---------- A failed synthesis is forgotten ----------

  function Deleted(c: Composition): Composition {
    c.(deleting := true, generation := c.generation + 1)
  }

  function ForgettingWrites(): seq<Action> {
    Opening([], ERROR) + [EditSpec([]), Swap(SYNTH, 0), RequestDeletion, Mark(0)]
  }

  function Forgetting(c: Composition): seq<Composition> {
    var v3 := Synthesized(c, [], ERROR);
    var v4 := v3.(bindings := [], generation := c.generation + 1);
    var v5 := Swapped(v4, 0);
    var v6 := Deleted(v5);
    [c, Swapped(c, 0), Dispatched(Swapped(c, 0), 1), v3, v4, v5, v6, Marked(v6, 2, 0)]
  }

  lemma ForgettingSteps(c: Composition)
    requires Plain(c)
    ensures var v := Forgetting(c);
            && Next(v[3], EditSpec([]), 2) == Some(v[4]) && Next(v[4], Swap(SYNTH, 0), 2) == Some(v[5])
            && Next(v[5], RequestDeletion, 2) == Some(v[6]) && Next(v[6], Mark(0), 2) == Some(v[7])
            && Enabled(v[7], RemoveFinalizer) && v[5].current == v[6].current
  {
    ErrorFails(c);
  }

  lemma ForgettingIsTold(c: Composition)
    requires Plain(c)
    ensures Told(Forgetting(c), ForgettingWrites())
  {
    var v, w := Forgetting(c), ForgettingWrites();
    OpeningSteps(c, [], ERROR);
    ForgettingSteps(c);
    assert w[..0] == [];
    forall i | 0 <= i < |w| ensures Issued(w[..i]) == (if i < 2 then 0 else 1) { IssuedIs(w, i); }
  }

  lemma {:induction false} IssuedIs(w: seq<Action>, i: nat)
    requires i < |w| && |w| >= 2 && forall k :: 0 <= k < i ==> (DrawsUuid(w[k]) <==> k == 1)
    ensures Issued(w[..i]) == if i < 2 then 0 else 1
  {
    if i > 0 {
      IssuedIs(w, i - 1);
      IssuedNext(w, i - 1);
    } else {
      assert w[..0] == [];
    }
  }

  /** A synthesis completed with an error and was discarded by a swap; then the finalizer may be removed,
      although nobody saw anything gone. */
  lemma {:induction false} FailureIsForgotten(c: Composition)
    requires Plain(c)
    ensures var h := Run(c, Requests(ForgettingWrites()));
            && Enabled(Newest(h), RemoveFinalizer) && !NeverCompleted(h) && !Seen(h, Newest(h).current) && DiscardedFailure(h)
  {
    ForgettingIsTold(c);
    ToldRun(Forgetting(c), ForgettingWrites());
    ForgettingSteps(c);
    ErrorFails(c);
    var h, v, w := Run(c, Requests(ForgettingWrites())), Forgetting(c), ForgettingWrites();
    assert h.versions == v && h.writes == w;
    assert w[2].Commit?;
    assert forall m :: 0 <= m < |w| ==> !w[m].Aggregate?;
    assert w[4].Swap? && CurrentFailed(v[4]);
  }

  // ---------- Two marks ----------

  function MarkingWrites(): seq<Action> {
    Opening([], ERROR) + [SetPending(0), RequestDeletion, Mark(0), RolloutSwap(0), Mark(0)]
  }

  function Marking(c: Composition): seq<Composition> {
    var v3 := Synthesized(c, [], ERROR);
    var v4 := v3.(pending := Some(0));
    var v5 := Deleted(v4);
    var v6 := Marked(v5, 2, 0);
    var v7 := v6.(current := Some(FreshSynthesis(v6.generation, 0).(deferred := true)), pending := None);
    [c, Swapped(c, 0), Dispatched(Swapped(c, 0), 1), v3, v4, v5, v6, v7, Marked(v7, 3, 0)]
  }

  lemma MarkingSteps(c: Composition)
    requires Plain(c)
    ensures var v := Marking(c);
            && Next(v[3], SetPending(0), 2) == Some(v[4]) && Next(v[4], RequestDeletion, 2) == Some(v[5])
            && Next(v[5], Mark(0), 2) == Some(v[6]) && Next(v[6], RolloutSwap(0), 3) == Some(v[7])
            && Next(v[7], Mark(0), 3) == Some(v[8])
  {
    ErrorFails(c);
    assert Failed(Marking(c)[6].current.value) by { assert Marking(c)[6].current.value.results == Marking(c)[3].current.value.results; }
  }

  lemma MarkingIsIssued()
    ensures forall i :: 0 <= i <= 7 ==> Issued(MarkingWrites()[..i]) == if i < 2 then 0 else if i < 6 then 1 else 2
  {
    var w := MarkingWrites();
    forall i | 0 <= i < 6 ensures Issued(w[..i]) == (if i < 2 then 0 else 1) { IssuedIs(w, i); }
    IssuedNext(w, 5);
    IssuedNext(w, 6);
  }

  lemma MarkingIsTold(c: Composition)
    requires Plain(c)
    ensures Told(Marking(c), MarkingWrites())
  {
    MarkingIsIssued();
    forall i | 0 <= i < 8 ensures StepTold(Marking(c), MarkingWrites(), i) {
      if i < 3 {
        OpeningSteps(c, [], ERROR);
      } else {
        MarkingSteps(c);
      }
    }
  }

  lemma CountThree(a: Action, b: Action, d: Action, p: Action -> bool)
    ensures CountOf([a, b, d], p) == (if p(a) then 1 else 0) + (if p(b) then 1 else 0) + if p(d) then 1 else 0
  {
    assert [a, b, d][..2] == [a, b] && [a, b][..1] == [a] && [a][..0] == [];
    assert CountOf([a], p) == CountOf([], p) + if p(a) then 1 else 0;
    assert CountOf([a, b], p) == CountOf([a], p) + if p(b) then 1 else 0;
  }

  /** At one generation of a deleting composition, two marks with one rollout swap: the bound on marks is
      tight. The rollout controller does not look at the deletion. */
  lemma {:induction false} MarkedTwice(c: Composition)
    requires Plain(c)
    ensures var h := Run(c, Requests(MarkingWrites()));
            && |h.versions| == 9 && |h.writes| == 8 && h.versions[5].deleting && h.versions[5].generation == h.versions[8].generation
            && CountOf(h.writes[5..8], IsMark) == 2 && CountOf(h.writes[5..8], IsRolloutSwap) == 1
  {
    MarkingIsTold(c);
    ToldRun(Marking(c), MarkingWrites());
    assert MarkingWrites()[5..8] == [Mark(0), RolloutSwap(0), Mark(0)];
    CountThree(Mark(0), RolloutSwap(0), Mark(0), IsMark);
    CountThree(Mark(0), RolloutSwap(0), Mark(0), IsRolloutSwap);
  }

  // ---------- Two reverts ----------

  const INPUT := InputRevision("a", "1", None, None)

  function RevertingWrites(): seq<Action> {
    Opening([], []) + [EditSpec([]), Swap(SYNTH, 0), ObserveInput(INPUT, true, 0), RequestDeletion, Revert, Mark(0), RolloutSwap(0), Revert]
  }

  function Reverting(c: Composition): seq<Composition> {
    var v3 := Synthesized(c, [], []);
    var v4 := v3.(bindings := [], generation := c.generation + 1);
    var v5 := Swapped(v4, 0);
    var v6 := v5.(inputRevisions := [INPUT], pending := Some(0));
    var v7 := Deleted(v6);
    var v8 := Reverted(v7);
    var v9 := Marked(v8, 2, 0);
    var v10 := v9.(previous := v9.current, current := Some(FreshSynthesis(v9.generation, 0).(deferred := true)), pending := None);
    [c, Swapped(c, 0), Dispatched(Swapped(c, 0), 1), v3, v4, v5, v6, v7, v8, v9, v10, Reverted(v10)]
  }

  lemma ObservingStep(c: Composition)
    requires Plain(c)
    ensures Next(Reverting(c)[5], ObserveInput(INPUT, true, 0), 2) == Some(Reverting(c)[6])
  {
    FirstInput(Reverting(c)[5], INPUT, 0, 2);
  }

  lemma RevertingSteps(c: Composition)
    requires Plain(c)
    ensures var v := Reverting(c);
            && Next(v[3], EditSpec([]), 2) == Some(v[4]) && Next(v[4], Swap(SYNTH, 0), 2) == Some(v[5])
            && Next(v[6], RequestDeletion, 2) == Some(v[7])
  {
  }

  lemma SucceedsQuietly(c: Composition)
    requires Plain(c)
    ensures var v := Reverting(c); v[3].current.Some? && Succeeded(v[3].current.value) && v[7].previous == v[3].current
    ensures var v := Reverting(c); v[9].current.Some? && Succeeded(v[9].current.value)
  {
    var none: seq<Result> := [];
    assert none + none == none;
    assert Reverting(c)[3].current.value.results == [];
  }

  lemma DeletingSteps(c: Composition)
    requires Plain(c)
    ensures var v := Reverting(c);
            && Next(v[7], Revert, 2) == Some(v[8]) && Next(v[8], Mark(0), 2) == Some(v[9])
            && Next(v[9], RolloutSwap(0), 3) == Some(v[10]) && Next(v[10], Revert, 3) == Some(v[11])
  {
    SucceedsQuietly(c);
  }

  lemma RevertingIsIssued()
    ensures forall i :: 0 <= i <= 10 ==> Issued(RevertingWrites()[..i]) == if i < 2 then 0 else if i < 9 then 1 else 2
  {
    var w := RevertingWrites();
    forall i | 0 <= i < 9 ensures Issued(w[..i]) == (if i < 2 then 0 else 1) { IssuedIs(w, i); }
    IssuedNext(w, 8);
    IssuedNext(w, 9);
  }

  lemma RevertingIsTold(c: Composition)
    requires Plain(c)
    ensures Told(Reverting(c), RevertingWrites())
  {
    var v, w := Reverting(c), RevertingWrites();
    RevertingIsIssued();
    forall i | 0 <= i < 11 ensures StepTold(v, w, i) {
      if i < 3 {
        OpeningSteps(c, [], []);
      } else if i < 7 {
        RevertingSteps(c);
        ObservingStep(c);
      } else {
        DeletingSteps(c);
      }
    }
  }

  lemma CountFour(a: Action, b: Action, d: Action, e: Action, p: Action -> bool)
    ensures CountOf([a, b, d, e], p) == CountOf([a, b, d], p) + if p(e) then 1 else 0
  {
    assert [a, b, d, e][..3] == [a, b, d];
  }

  /** Likewise two reverts with one rollout swap. */
  lemma {:induction false} RevertedTwice(c: Composition)
    requires Plain(c)
    ensures var h := Run(c, Requests(RevertingWrites()));
            && |h.versions| == 12 && |h.writes| == 11 && h.versions[7].deleting && h.versions[7].generation == h.versions[11].generation
            && CountOf(h.writes[7..11], IsRevert) == 2 && CountOf(h.writes[7..11], IsRolloutSwap) == 1
  {
    RevertingIsTold(c);
    ToldRun(Reverting(c), RevertingWrites());
    assert RevertingWrites()[7..11] == [Revert, Mark(0), RolloutSwap(0), Revert];
    CountThree(Revert, Mark(0), RolloutSwap(0), IsRevert);
    CountFour(Revert, Mark(0), RolloutSwap(0), Revert, IsRevert);
    CountThree(Revert, Mark(0), RolloutSwap(0), IsRolloutSwap);
    CountFour(Revert, Mark(0), RolloutSwap(0), Revert, IsRolloutSwap);
  }

  // ---------- A failed Current hides Previous ----------

  function HidingWrites(): seq<Action> {
    Opening([7], []) + [EditSpec([]), Swap(SYNTH, 0), Dispatch, Commit(Env(2, 1), Output([], ERROR, [], 1), 0), RequestDeletion, Mark(0), Aggregate([], 0)]
  }

  function Hiding(c: Composition): seq<Composition> {
    var v3 := Synthesized(c, [7], []);
    var v4 := v3.(bindings := [], generation := c.generation + 1);
    var v5 := Swapped(v4, 0);
    var v6 := Dispatched(v5, 2);
    var v7 := Committed(v6, Output([], ERROR, [], 1), 0);
    var v8 := Deleted(v7);
    var v9 := Marked(v8, 3, 0);
    [c, Swapped(c, 0), Dispatched(Swapped(c, 0), 1), v3, v4, v5, v6, v7, v8, v9, Aggregation.Aggregated(v9, [], 0)]
  }

  lemma HidingSucceeds(c: Composition)
    requires Plain(c)
    ensures var v := Hiding(c); v[4].current.Some? && Succeeded(v[4].current.value) && v[5].previous == v[4].current && v[4].current.value.slices == [7]
  {
    var none: seq<Result> := [];
    assert none + none == none;
    assert Hiding(c)[3].current.value.results == [];
  }

  lemma HidingFails(c: Composition)
    requires Plain(c)
    ensures var v := Hiding(c); CurrentFailed(v[7]) && v[10].current.Some? && Failed(v[10].current.value) && v[10].previous == v[4].current
  {
    HidingSucceeds(c);
    var none: seq<Result> := [];
    assert none + ERROR == ERROR && ERROR[0].severity == "error";
    assert Hiding(c)[7].current.value.results == ERROR && Hiding(c)[10].current.value.results == ERROR;
  }

  lemma HidingSteps(c: Composition)
    requires Plain(c)
    ensures var v := Hiding(c);
            && Next(v[3], EditSpec([]), 2) == Some(v[4]) && Next(v[4], Swap(SYNTH, 0), 2) == Some(v[5])
            && Next(v[5], Dispatch, 2) == Some(v[6]) && Next(v[6], HidingWrites()[6], 3) == Some(v[7])
  {
  }

  lemma HidingDeletes(c: Composition)
    requires Plain(c)
    ensures var v := Hiding(c);
            && Next(v[7], RequestDeletion, 3) == Some(v[8]) && Next(v[8], Mark(0), 3) == Some(v[9])
            && Next(v[9], Aggregate([], 0), 4) == Some(v[10]) && Enabled(v[10], RemoveFinalizer)
  {
    HidingFails(c);
  }

  lemma HidingIsIssued()
    ensures forall i :: 0 <= i <= 9 ==> Issued(HidingWrites()[..i]) == if i < 2 then 0 else if i < 6 then 1 else if i < 9 then 2 else 3
  {
    var w := HidingWrites();
    forall i | 0 <= i < 6 ensures Issued(w[..i]) == (if i < 2 then 0 else 1) { IssuedIs(w, i); }
    IssuedNext(w, 5);
    IssuedNext(w, 6);
    IssuedNext(w, 7);
    IssuedNext(w, 8);
  }

  lemma HidingStarts(c: Composition, i: nat)
    requires Plain(c) && i < 7
    ensures StepTold(Hiding(c), HidingWrites(), i)
  {
    HidingIsIssued();
    if i < 3 {
      OpeningSteps(c, [7], []);
    } else {
      HidingSteps(c);
    }
  }

  lemma HidingEnds(c: Composition, i: nat)
    requires Plain(c) && 7 <= i < 10
    ensures StepTold(Hiding(c), HidingWrites(), i)
  {
    HidingIsIssued();
    HidingDeletes(c);
  }

  lemma HidingIsTold(c: Composition)
    requires Plain(c)
    ensures Told(Hiding(c), HidingWrites())
  {
    forall i | 0 <= i < 10 ensures StepTold(Hiding(c), HidingWrites(), i) {
      if i < 7 {
        HidingStarts(c, i);
      } else {
        HidingEnds(c, i);
      }
    }
  }

  /** A synthesis with slice 7 succeeded, the next one failed; then the finalizer may be removed although
      Previous, which holds slice 7, was never looked at. */
  lemma {:induction false} FailureHidesPrevious(c: Composition)
    requires Plain(c)
    ensures var h := Run(c, Requests(HidingWrites()));
            && Enabled(Newest(h), RemoveFinalizer) && Newest(h).previous.Some? && Newest(h).previous.value.slices == [7]
            && (exists i :: 0 <= i < |h.writes| && h.writes[i].Commit? && h.writes[i].output.slices == [7])
            && forall i :: 0 <= i < |h.writes| && h.writes[i].Aggregate? && i < |h.versions| ==>
                 h.versions[i].current.Some? && h.versions[i].current.value.slices == []
  {
    HidingIsTold(c);
    ToldRun(Hiding(c), HidingWrites());
    HidingSucceeds(c);
    HidingFails(c);
    HidingDeletes(c);
    var h, v, w := Run(c, Requests(HidingWrites())), Hiding(c), HidingWrites();
    assert h.versions == v && h.writes == w;
    assert w[2].Commit? && w[2].output.slices == [7];
    assert forall i :: 0 <= i < 9 ==> !w[i].Aggregate?;
    assert v[9].current.value.slices == [];
  }
}
