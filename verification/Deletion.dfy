/** The deletion protocol: when the cleanup finalizer may go, and why the controller gets there. */
module Deletion {
  import opened Api
  import opened Lifecycle
  import opened Aggregation
  import opened History

  /** No synthesis ever completed without errors. */
  ghost predicate NoSuccess(h: Log) {
    forall i :: 0 <= i < |h.writes| && h.writes[i].Commit? ==> HasError(h.writes[i].output.results)
  }

  /** Write `m` is an aggregation of the synthesis, made after the deletion was requested, that saw
      every resource of every slice that still existed Reconciled and Deleted (or left on purpose). */
  ghost predicate SawAllGone(h: Log, uuid: Uuid, m: nat) {
    && Shape(h) && m < |h.writes| && h.writes[m].Aggregate?
    && var c := h.versions[m];
    && c.deleting && c.current.Some? && c.current.value.uuid == uuid
    && var view := h.writes[m].view;
    && |view| == |c.current.value.slices|
    && forall k :: 0 <= k < |view| && view[k].Some? ==> !Lagging(view[k].value) && AllGone(view[k].value.status, c.orphan)
  }

  predicate AllGone(status: seq<ResourceState>, orphan: bool) {
    forall k :: 0 <= k < |status| ==> status[k].reconciled && (status[k].deleted || orphan)
  }

  predicate LooksDone(c: Composition, s: Option<Synthesis>) {
    s.Some? && s.value.observedGeneration == c.generation && s.value.reconciled.Some?
  }

  /** The synthesis never got a result: its function did not run to the end. */
  predicate Empty(s: Synthesis) {
    s.results == [] && s.slices == []
  }

  /** What is known of one version, with the sights of Current and Previous reduced to flags. */
  ghost predicate Accounted(c: Composition, noSuccess: bool, sawCurrent: bool, sawPrevious: bool) {
    && (c.deleting && LooksDone(c, c.current) ==> (noSuccess && Empty(c.current.value)) || sawCurrent)
    && (c.deleting && LooksDone(c, c.previous) ==> (noSuccess && Empty(c.previous.value)) || sawPrevious || (c.current.Some? && Succeeded(c.current.value)))
    && (!noSuccess ==> c.previous.Some? || (c.current.Some? && Succeeded(c.current.value)))
  }

  ghost predicate Seen(h: Log, s: Option<Synthesis>) {
    s.Some? && exists m :: SawAllGone(h, s.value.uuid, m)
  }

  ghost predicate DeletionInv(h: Log) {
    h.versions != [] && Accounted(Newest(h), NoSuccess(h), Seen(h, Newest(h).current), Seen(h, Newest(h).previous))
  }

  lemma AppendPreservesSight(h: Log, a: Action, d: Composition, uuid: Uuid)
    requires Shape(h)
    ensures (exists m :: SawAllGone(h, uuid, m)) ==> exists m :: SawAllGone(Append(h, a, d), uuid, m)
    ensures NoSuccess(Append(h, a, d)) <==> NoSuccess(h) && (a.Commit? ==> HasError(a.output.results))
  {
    var h' := Append(h, a, d);
    if m :| SawAllGone(h, uuid, m) {
      assert SawAllGone(h', uuid, m);
    }
    if NoSuccess(h') {
      forall i | 0 <= i < |h.writes| && h.writes[i].Commit? ensures HasError(h.writes[i].output.results) {
        assert h'.writes[i] == h.writes[i];
      }
      assert h'.writes[|h.writes|] == a;
    }
  }

  /** An aggregation of a deleting composition that settles everything is the sight asked for. */
  lemma AggregationSees(h: Log, a: Action, d: Composition)
    requires Shape(h) && a.Aggregate? && Next(Newest(h), a, 0) == Some(d)
    requires Newest(h).deleting && d.current.Some? && d.current.value.reconciled.Some?
    ensures SawAllGone(Append(h, a, d), d.current.value.uuid, |h.writes|)
  {
    var c, view := Newest(h), a.view;
    assert AllSettled(c, view);
    forall k | 0 <= k < |view| && view[k].Some? ensures !Lagging(view[k].value) && AllGone(view[k].value.status, c.orphan) {
      assert SliceSettled(c, view[k].value);
    }
  }

  /** `t` of the next version was seen as `s` of this one. */
  predicate SeenAs(saw: bool, s: Option<Synthesis>, t: Option<Synthesis>) {
    saw && s.Some? && t.Some? && s.value.uuid == t.value.uuid
  }

  /** Accounted for the next version, with what this one saw. */
  ghost predicate Inherits(c: Composition, d: Composition, noSuccess: bool, sawCurrent: bool, sawPrevious: bool) {
    Accounted(d, noSuccess,
              SeenAs(sawCurrent, c.current, d.current) || SeenAs(sawPrevious, c.previous, d.current),
              SeenAs(sawCurrent, c.current, d.previous) || SeenAs(sawPrevious, c.previous, d.previous))
  }

  lemma SwapClears(c: Composition, a: Action, d: Composition, issued: Uuid, noSuccess: bool, sawCurrent: bool, sawPrevious: bool)
    requires Good(c, issued) && Rewrite(c, a, issued + 1) == Some(d) && (a.Swap? || a.RolloutSwap? || a.Revert?)
    requires Accounted(c, noSuccess, sawCurrent, sawPrevious)
    ensures Inherits(c, d, noSuccess, sawCurrent, sawPrevious)
  {
  }

  lemma OtherClears(c: Composition, a: Action, d: Composition, issued: Uuid, noSuccess: bool, sawCurrent: bool, sawPrevious: bool)
    requires Good(c, issued) && Rewrite(c, a, issued + 1) == Some(d) && (a.RecordAttempt? || a.Mark? || a.Dispatch?)
    requires Accounted(c, noSuccess, sawCurrent, sawPrevious)
    ensures Inherits(c, d, noSuccess, sawCurrent, sawPrevious)
  {
  }

  lemma StepClears(c: Composition, a: Action, d: Composition, issued: Uuid, noSuccess: bool, sawCurrent: bool, sawPrevious: bool)
    requires Good(c, issued) && Rewrite(c, a, issued + 1) == Some(d) && !a.Aggregate?
    requires Accounted(c, noSuccess, sawCurrent, sawPrevious)
    ensures Inherits(c, d, noSuccess && (a.Commit? ==> HasError(a.output.results)), sawCurrent, sawPrevious)
  {
    if a.Commit? {
      assert d.current.value.results == a.output.results;
    } else if !Touches(a) {
      QuietStep(c, a, d, issued + 1);
    } else if a.Swap? || a.RolloutSwap? || a.Revert? {
      SwapClears(c, a, d, issued, noSuccess, sawCurrent, sawPrevious);
    } else {
      OtherClears(c, a, d, issued, noSuccess, sawCurrent, sawPrevious);
    }
  }

  lemma SightLasts(h: Log, a: Action, d: Composition, s: Option<Synthesis>, t: Option<Synthesis>)
    requires Shape(h)
    ensures SeenAs(Seen(h, s), s, t) ==> Seen(Append(h, a, d), t)
  {
    if s.Some? { AppendPreservesSight(h, a, d, s.value.uuid); }
  }

  lemma AppendKeepsDeletionInv(h: Log, a: Action, d: Composition)
    requires Inv(h) && DeletionInv(h) && Rewrite(Newest(h), a, h.issued + 1) == Some(d) && !a.Aggregate?
    ensures DeletionInv(Append(h, a, d))
  {
    var c := Newest(h);
    assert Good(c, h.issued);
    StepClears(c, a, d, h.issued, NoSuccess(h), Seen(h, c.current), Seen(h, c.previous));
    AppendPreservesSight(h, a, d, NO_UUID);
    SightLasts(h, a, d, c.current, d.current);
    SightLasts(h, a, d, c.previous, d.current);
    SightLasts(h, a, d, c.current, d.previous);
    SightLasts(h, a, d, c.previous, d.previous);
  }

  lemma AggregationKeepsDeletionInv(h: Log, a: Action, d: Composition)
    requires Inv(h) && DeletionInv(h) && Next(Newest(h), a, h.issued + 1) == Some(d) && a.Aggregate?
    ensures DeletionInv(Append(h, a, d))
  {
    var c := Newest(h);
    AppendPreservesSight(h, a, d, NO_UUID);
    SightLasts(h, a, d, c.previous, d.previous);
    if c.deleting && d.current.value.reconciled.Some? {
      AggregationSees(h, a, d);
    }
  }

  lemma ServeKeepsDeletionInv(h: Log, r: Request)
    requires Inv(h) && DeletionInv(h)
    ensures DeletionInv(Serve(h, r))
  {
    match Outcome(h, r)
    case None =>
    case Some(d) =>
      NextRewrites(Newest(h), r.action, h.issued + 1);
      if r.action.Aggregate? {
        AggregationKeepsDeletionInv(h, r.action, d);
      } else {
        AppendKeepsDeletionInv(h, r.action, d);
      }
  }

  lemma {:induction false} RunKeepsDeletionInv(c: Composition, requests: seq<Request>)
    requires Initial(c)
    ensures Inv(Run(c, requests)) && DeletionInv(Run(c, requests))
  {
    RunKeepsInv(c, requests);
    if requests != [] {
      var before := requests[..|requests| - 1];
      RunKeepsDeletionInv(c, before);
      ServeKeepsDeletionInv(Run(c, before), requests[|requests| - 1]);
    }
  }

  /** In every reachable state: the cleanup finalizer is removed only if Current was aggregated, after the
      deletion, with all of its resources gone, or if no synthesis ever succeeded and Current, if there
      is one, has no result of its own. */
  lemma {:induction false} FinalizerRemovalIsSafe(c: Composition, requests: seq<Request>)
    requires Initial(c)
    requires Enabled(Newest(Run(c, requests)), RemoveFinalizer)
    ensures var h := Run(c, requests);
            || (NoSuccess(h) && (Newest(h).current.Some? ==> Empty(Newest(h).current.value)))
            || Seen(h, Newest(h).current)
  {
    RunKeepsDeletionInv(c, requests);
  }

  // ---------- When no synthesis ever completed ----------

  /** No synthesis ever completed, with or without errors. */
  ghost predicate NeverCompleted(h: Log) {
    forall i :: 0 <= i < |h.writes| ==> !h.writes[i].Commit?
  }

  predicate CurrentFailed(c: Composition) {
    c.current.Some? && c.current.value.synthesized.Some? && Failed(c.current.value)
  }

  /** A swap discarded a failed synthesis. */
  ghost predicate DiscardedFailure(h: Log) {
    Shape(h) && exists i :: 0 <= i < |h.writes| && (h.writes[i].Swap? || h.writes[i].RolloutSwap?) && CurrentFailed(h.versions[i])
  }

  /** A failed synthesis is Current or was discarded. */
  ghost predicate FailureInv(h: Log) {
    && h.versions != []
    && (NoSuccess(h) && !NeverCompleted(h) ==> CurrentFailed(Newest(h)) || DiscardedFailure(h))
    && (CurrentFailed(Newest(h)) || DiscardedFailure(h) ==> !NeverCompleted(h))
  }

  lemma StepFails(c: Composition, a: Action, d: Composition, issued: Uuid)
    requires Good(c, issued) && Rewrite(c, a, issued + 1) == Some(d)
    ensures CurrentFailed(d) ==> CurrentFailed(c) || a.Commit?
    ensures CurrentFailed(c) ==> CurrentFailed(d) || a.Swap? || a.RolloutSwap?
    ensures a.Commit? && HasError(a.output.results) ==> CurrentFailed(d)
  {
    if a.Commit? {
      assert d.current.value.results == a.output.results;
    }
  }

  lemma AppendDiscards(h: Log, a: Action, d: Composition)
    requires Shape(h)
    ensures DiscardedFailure(Append(h, a, d)) <==> DiscardedFailure(h) || ((a.Swap? || a.RolloutSwap?) && CurrentFailed(Newest(h)))
    ensures NeverCompleted(Append(h, a, d)) <==> NeverCompleted(h) && !a.Commit?
  {
    var h', n := Append(h, a, d), |h.writes|;
    assert h'.writes[n] == a && h'.versions[n] == Newest(h);
    assert forall i :: 0 <= i < n ==> h'.writes[i] == h.writes[i] && h'.versions[i] == h.versions[i];
  }

  lemma ServeKeepsFailureInv(h: Log, r: Request)
    requires Inv(h) && FailureInv(h)
    ensures FailureInv(Serve(h, r))
  {
    match Outcome(h, r)
    case None =>
    case Some(d) =>
      assert Good(Newest(h), h.issued);
      NextRewrites(Newest(h), r.action, h.issued + 1);
      StepFails(Newest(h), r.action, d, h.issued);
      AppendDiscards(h, r.action, d);
      AppendPreservesSight(h, r.action, d, NO_UUID);
      assert Newest(Append(h, r.action, d)) == d;
  }

  lemma {:induction false} RunKeepsFailureInv(c: Composition, requests: seq<Request>)
    requires Initial(c)
    ensures FailureInv(Run(c, requests))
  {
    if requests != [] {
      var before := requests[..|requests| - 1];
      RunKeepsFailureInv(c, before);
      RunKeepsInv(c, before);
      ServeKeepsFailureInv(Run(c, before), requests[|requests| - 1]);
    }
  }

  /** The stricter reading, "no synthesis ever completed, or everything was seen gone", holds at the removal
      if and only if everything was seen gone or no swap discarded a failed synthesis. */
  lemma {:induction false} StrictRemovalExactly(c: Composition, requests: seq<Request>)
    requires Initial(c)
    requires Enabled(Newest(Run(c, requests)), RemoveFinalizer)
    ensures var h := Run(c, requests);
            NeverCompleted(h) || Seen(h, Newest(h).current) <==> !DiscardedFailure(h) || Seen(h, Newest(h).current)
  {
    FinalizerRemovalIsSafe(c, requests);
    RunKeepsFailureInv(c, requests);
  }

  /** What the controller does next with a deleting composition, in the fields that it reads: revert if there
      is a Previous and Current is missing or unfinished; else mark if Current is unfinished or does not
      reflect the generation; else remove the finalizer if there is no Current or it is reconciled. */
  lemma DeletionStepExactly(c: Composition, now: Time, uuid: Uuid)
    requires c.deleting
    ensures var unfinished := c.current.Some? && c.current.value.synthesized.None?;
            var outdated := c.current.Some? && c.current.value.observedGeneration != c.generation;
            var revert := c.previous.Some? && (c.current.None? || unfinished);
            && (Next(c, Revert, uuid).Some? <==> revert)
            && (Next(c, Mark(now), uuid).Some? <==> !revert && (unfinished || outdated))
            && (Next(c, RemoveFinalizer, uuid).Some? <==>
                  c.finalizer && !revert && !unfinished && !outdated && (c.current.Some? ==> c.current.value.reconciled.Some?))
            && (Next(c, RemoveFinalizer, uuid).Some? ==> Next(c, RemoveFinalizer, uuid) == Some(c.(finalizer := false)))
  {
  }

  // ---------- Which synthesis is cleaned up ----------

  /** The slices of the last synthesis that succeeded. */
  function LastSuccess(writes: seq<Action>): Option<seq<SliceName>> {
    if writes == [] then None
    else
      var a := writes[|writes| - 1];
      if a.Commit? && !HasError(a.output.results) then Some(a.output.slices) else LastSuccess(writes[..|writes| - 1])
  }

  lemma StepKeepsNewest(c: Composition, a: Action, d: Composition, issued: Uuid)
    requires Good(c, issued) && Rewrite(c, a, issued + 1) == Some(d) && NewestSlices(c).Some? && !a.Commit?
    ensures NewestSlices(d) == NewestSlices(c)
  {
    if !Touches(a) {
      QuietStep(c, a, d, issued + 1);
    }
  }

  lemma CommitMakesNewest(c: Composition, a: Action, d: Composition, issued: Uuid)
    requires Good(c, issued) && Rewrite(c, a, issued + 1) == Some(d) && a.Commit?
    ensures if HasError(a.output.results) then NewestSlices(d) == NewestSlices(c) && CurrentFailed(d) else NewestSlices(d) == Some(a.output.slices)
  {
    assert d.current.value.results == a.output.results;
  }

  ghost predicate NewestInv(h: Log) {
    h.versions != [] && (LastSuccess(h.writes).Some? ==> NewestSlices(Newest(h)) == LastSuccess(h.writes))
  }

  lemma LastSuccessSnoc(writes: seq<Action>, a: Action)
    ensures LastSuccess(writes + [a]) == if a.Commit? && !HasError(a.output.results) then Some(a.output.slices) else LastSuccess(writes)
  {
    assert (writes + [a])[..|writes|] == writes;
  }

  lemma AppendKeepsNewestInv(h: Log, a: Action, d: Composition)
    requires NewestInv(h) && Good(Newest(h), h.issued) && Rewrite(Newest(h), a, h.issued + 1) == Some(d)
    ensures NewestInv(Append(h, a, d))
  {
    LastSuccessSnoc(h.writes, a);
    if a.Commit? {
      CommitMakesNewest(Newest(h), a, d, h.issued);
    } else if LastSuccess(h.writes).Some? {
      StepKeepsNewest(Newest(h), a, d, h.issued);
    }
  }

  lemma ServeKeepsNewestInv(h: Log, r: Request)
    requires Inv(h) && NewestInv(h)
    ensures NewestInv(Serve(h, r))
  {
    match Outcome(h, r)
    case None =>
    case Some(d) =>
      assert Good(Newest(h), h.issued);
      NextRewrites(Newest(h), r.action, h.issued + 1);
      AppendKeepsNewestInv(h, r.action, d);
  }

  lemma {:induction false} RunKeepsNewestInv(c: Composition, requests: seq<Request>)
    requires Initial(c)
    ensures NewestInv(Run(c, requests))
  {
    if requests != [] {
      var before := requests[..|requests| - 1];
      RunKeepsNewestInv(c, before);
      RunKeepsInv(c, before);
      ServeKeepsNewestInv(Run(c, before), requests[|requests| - 1]);
    }
  }

  lemma {:induction false} LastSuccessIsSuccess(writes: seq<Action>)
    ensures LastSuccess(writes).Some? <==> exists i :: 0 <= i < |writes| && writes[i].Commit? && !HasError(writes[i].output.results)
  {
    if writes != [] {
      var n := |writes| - 1;
      LastSuccessIsSuccess(writes[..n]);
      if i :| 0 <= i < n && writes[..n][i].Commit? && !HasError(writes[..n][i].output.results) {
        assert writes[i].Commit? && !HasError(writes[i].output.results);
      }
      if i :| 0 <= i < |writes| && writes[i].Commit? && !HasError(writes[i].output.results) {
        assert i < n ==> writes[..n][i].Commit?;
      }
    }
  }

  /** Once a synthesis has succeeded, Current is seen gone before the finalizer is removed, and Current is the
      last successful synthesis if and only if it did not fail; otherwise that one is Previous and
      was not looked at. */
  lemma {:induction false} RemovalSeesNewestExactly(c: Composition, requests: seq<Request>)
    requires Initial(c) && Enabled(Newest(Run(c, requests)), RemoveFinalizer) && LastSuccess(Run(c, requests).writes).Some?
    ensures var h := Run(c, requests);
            && Newest(h).current.Some? && Seen(h, Newest(h).current)
            && (if !Failed(Newest(h).current.value) then LastSuccess(h.writes) == Some(Newest(h).current.value.slices)
                else Newest(h).previous.Some? && LastSuccess(h.writes) == Some(Newest(h).previous.value.slices)
                     && Newest(h).previous.value.uuid != Newest(h).current.value.uuid)
  {
    var h := Run(c, requests);
    RunKeepsNewestInv(c, requests);
    RunKeepsInv(c, requests);
    assert Good(Newest(h), h.issued);
    LastSuccessIsSuccess(h.writes);
    var i :| 0 <= i < |h.writes| && h.writes[i].Commit? && !HasError(h.writes[i].output.results);
    FinalizerRemovalIsSafe(c, requests);
  }

  // ---------- The deletion can finish ----------

  function AllMissing(n: nat): (view: View)
    ensures |view| == n && forall k :: 0 <= k < n ==> view[k].None?
  {
    seq(n, _ => None)
  }

  lemma ServeNow(h: Log, a: Action, d: Composition)
    requires h.versions != [] && !a.RecordAttempt? && Next(Newest(h), a, h.issued + 1) == Some(d)
    ensures var t := Serve(h, Request(|h.versions| - 1, a)); t.versions == h.versions + [d] && t.issued >= h.issued
  {
  }

  /** The controller's next write for a deleting composition whose slices are all gone. */
  function NextWrite(c: Composition): Action {
    if ShouldRevert(c) then Revert
    else if ShouldMark(c) then Mark(0)
    else if c.current.Some? && c.current.value.reconciled.None? then Aggregate(AllMissing(|c.current.value.slices|), 0)
    else RemoveFinalizer
  }

  /** How many of these writes are still to come. */
  function WritesLeft(c: Composition): nat {
    if ShouldRevert(c) then 4
    else if ShouldMark(c) then 3
    else if c.current.Some? && c.current.value.reconciled.None? then 2
    else if c.finalizer then 1
    else 0
  }

  lemma NextWriteProgresses(c: Composition, issued: Uuid)
    requires Good(c, issued) && c.deleting && c.finalizer
    ensures var d := Next(c, NextWrite(c), issued + 1);
            d.Some? && d.value.deleting && WritesLeft(d.value) < WritesLeft(c) && (d.value.finalizer || WritesLeft(d.value) == 0)
  {
    if !ShouldRevert(c) && !ShouldMark(c) && c.current.Some? && c.current.value.reconciled.None? {
      assert AllSettled(c, AllMissing(|c.current.value.slices|));
    }
  }

  /** From every reachable state of a deleting composition the finalizer is removed within four writes of
      the controllers, once its slices are gone: at most a revert, a mark, an aggregation and the removal. */
  lemma {:induction false} DeletionCanFinish(c: Composition, requests: seq<Request>) returns (t: Log)
    requires Initial(c) && Newest(Run(c, requests)).deleting && Newest(Run(c, requests)).finalizer
    ensures var h := Run(c, requests); h.versions <= t.versions && |t.versions| <= |h.versions| + 4
    ensures Justified(t) && !Newest(t).finalizer
  {
    RunKeepsInv(c, requests);
    t := FinishFrom(Run(c, requests));
  }

  lemma {:induction false} FinishFrom(h: Log) returns (t: Log)
    requires Inv(h) && Newest(h).deleting && Newest(h).finalizer
    ensures Inv(t) && h.versions <= t.versions && |t.versions| <= |h.versions| + WritesLeft(Newest(h)) && !Newest(t).finalizer
    decreases WritesLeft(Newest(h))
  {
    var c := Newest(h);
    assert Good(c, h.issued);
    NextWriteProgresses(c, h.issued);
    var d := Next(c, NextWrite(c), h.issued + 1).value;
    var r := Request(|h.versions| - 1, NextWrite(c));
    ServeNow(h, NextWrite(c), d);
    ServeKeepsInv(h, r);
    if d.finalizer {
      t := FinishFrom(Serve(h, r));
    } else {
      t := Serve(h, r);
    }
  }

  // ---------- Progress ----------

  function CountOf(writes: seq<Action>, p: Action -> bool): nat {
    if writes == [] then 0
    else CountOf(writes[..|writes| - 1], p) + if p(writes[|writes| - 1]) then 1 else 0
  }

  predicate IsRevert(a: Action) { a.Revert? }

  predicate IsMark(a: Action) { a.Mark? }

  predicate IsRolloutSwap(a: Action) { a.RolloutSwap? }

  function RevertsLeft(c: Composition): nat {
    if c.previous.Some? then 1 else 0
  }

  function MarksLeft(c: Composition): nat {
    if ShouldRevert(c) || ShouldMark(c) then 1 else 0
  }

  /** A step of a deleting composition uses up what it does, unless the rollout controller swaps. */
  ghost predicate UsesUp(c: Composition, a: Action, d: Composition) {
    && Ages(c, d)
    && (c.deleting && c.generation == d.generation ==>
          && (if IsRevert(a) then 1 else 0) + RevertsLeft(d) <= RevertsLeft(c) + (if IsRolloutSwap(a) then 1 else 0)
          && (if IsMark(a) then 1 else 0) + MarksLeft(d) <= MarksLeft(c) + (if IsRolloutSwap(a) then 1 else 0))
  }

  lemma StepUsesUp(c: Composition, a: Action, d: Composition, drawn: Uuid)
    requires Rewrite(c, a, drawn) == Some(d) && (c.previous.Some? ==> c.previous.value.synthesized.Some?)
    ensures UsesUp(c, a, d)
  {
  }

  lemma AllStepsUseUp(h: Log)
    requires Inv(h)
    ensures forall i :: 0 <= i < |h.writes| ==> UsesUp(h.versions[i], h.writes[i], h.versions[i + 1])
  {
    forall i | 0 <= i < |h.writes| ensures UsesUp(h.versions[i], h.writes[i], h.versions[i + 1]) {
      assert Good(h.versions[i], h.issued);
      assert Stepped(h.versions[i], h.writes[i], h.versions[i + 1]);
      var drawn :| Next(h.versions[i], h.writes[i], drawn) == Some(h.versions[i + 1]);
      NextRewrites(h.versions[i], h.writes[i], drawn);
      StepUsesUp(h.versions[i], h.writes[i], h.versions[i + 1], drawn);
    }
  }

  ghost predicate WithinMeasure(h: Log, i: nat, j: nat)
    requires Shape(h) && i <= j < |h.versions|
  {
    var writes := h.writes[i..j];
    var budget := 1 + CountOf(writes, IsRolloutSwap);
    && CountOf(writes, IsRevert) + RevertsLeft(h.versions[j]) <= budget
    && CountOf(writes, IsMark) + MarksLeft(h.versions[j]) <= budget
  }

  lemma CountSnoc(writes: seq<Action>, i: nat, j: nat, p: Action -> bool)
    requires i < j <= |writes|
    ensures CountOf(writes[i..j], p) == CountOf(writes[i..j - 1], p) + if p(writes[j - 1]) then 1 else 0
  {
    assert writes[i..j][..j - 1 - i] == writes[i..j - 1];
  }

  lemma {:induction false} MeasureHolds(h: Log, i: nat, j: nat)
    requires Shape(h) && i <= j < |h.versions|
    requires forall k :: 0 <= k < |h.writes| ==> UsesUp(h.versions[k], h.writes[k], h.versions[k + 1])
    requires h.versions[i].deleting && h.versions[i].generation == h.versions[j].generation
    ensures WithinMeasure(h, i, j) && h.versions[j].deleting
    decreases j
  {
    if i < j {
      assert UsesUp(h.versions[j - 1], h.writes[j - 1], h.versions[j]);
      AgesAlong(h, i, j - 1);
      MeasureHolds(h, i, j - 1);
      CountSnoc(h.writes, i, j, IsRolloutSwap);
      CountSnoc(h.writes, i, j, IsRevert);
      CountSnoc(h.writes, i, j, IsMark);
    }
  }

  lemma {:induction false} AgesAlong(h: Log, i: nat, j: nat)
    requires Shape(h) && i <= j < |h.versions|
    requires forall k :: 0 <= k < |h.writes| ==> UsesUp(h.versions[k], h.writes[k], h.versions[k + 1])
    ensures Ages(h.versions[i], h.versions[j])
    decreases j
  {
    if i < j {
      AgesAlong(h, i, j - 1);
      assert UsesUp(h.versions[j - 1], h.writes[j - 1], h.versions[j]);
    }
  }

  /** While the generation of a deleting composition stays the same, the controller reverts at most
      once and marks at most once, plus once for each swap that the rollout controller squeezes in;
      what is left of the measure bounds what it may still do. */
  lemma {:induction false} DeletionMeasure(c: Composition, requests: seq<Request>, i: nat, j: nat)
    requires Initial(c) && i <= j < |Run(c, requests).versions|
    requires Run(c, requests).versions[i].deleting
    requires Run(c, requests).versions[i].generation == Run(c, requests).versions[j].generation
    ensures Shape(Run(c, requests)) && WithinMeasure(Run(c, requests), i, j)
  {
    RunKeepsInv(c, requests);
    AllStepsUseUp(Run(c, requests));
    MeasureHolds(Run(c, requests), i, j);
  }
}
