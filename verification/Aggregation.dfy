/** Aggregation of slice states into the composition's status. */
module Aggregation {
  import opened Api

  /** One lookup per referenced slice; `None` when the slice does not exist. */
  type View = seq<Option<ResourceSlice>>

  /** The status has not been allocated yet. */
  predicate Lagging(s: ResourceSlice) {
    s.status == [] && s.spec.resources != []
  }

  predicate ResourceNotReconciled(c: Composition, state: ResourceState) {
    !state.reconciled || (!state.deleted && !c.orphan && c.deleting)
  }

  predicate StatusTerminal(c: Composition) {
    c.current.None? || c.current.value.synthesized.None? || (c.current.value.ready.Some? && c.current.value.reconciled.Some?)
  }

  predicate StatusInSync(c: Composition, reconciled: bool, ready: bool)
    requires c.current.Some?
  {
    c.current.value.reconciled.Some? == reconciled && c.current.value.ready.Some? == ready
  }

  /** The first missing slice of a live composition stops the aggregation, unless a lagging slice
      came before it. */
  predicate Aborts(c: Composition, view: View) {
    !c.deleting && exists i :: 0 <= i < |view| && view[i].None? && Readable(view[..i])
  }

  predicate Readable(view: View) {
    forall j :: 0 <= j < |view| ==> view[j].Some? && !Lagging(view[j].value)
  }

  predicate SliceSettled(c: Composition, s: ResourceSlice) {
    !Lagging(s) && forall k :: 0 <= k < |s.status| ==> !ResourceNotReconciled(c, s.status[k])
  }

  predicate SliceReady(s: ResourceSlice) {
    !Lagging(s) && forall k :: 0 <= k < |s.status| ==> s.status[k].ready.Some?
  }

  /** Every slice that still exists has only reconciled resources. */
  predicate AllSettled(c: Composition, view: View) {
    forall i :: 0 <= i < |view| && view[i].Some? ==> SliceSettled(c, view[i].value)
  }

  predicate AllReady(view: View) {
    forall i :: 0 <= i < |view| && view[i].Some? ==> SliceReady(view[i].value)
  }

  function Later(a: Option<Time>, b: Option<Time>): Option<Time> {
    if b.Some? && (a.None? || a.value < b.value) then b else a
  }

  function MaxReady(states: seq<ResourceState>): Option<Time> {
    if states == [] then None else Later(MaxReady(states[..|states| - 1]), states[|states| - 1].ready)
  }

  function States(view: View): seq<ResourceState> {
    if view == [] then []
    else States(view[..|view| - 1]) + if view[|view| - 1].Some? then view[|view| - 1].value.status else []
  }

  /** `MaxReady` is the latest of the recorded times. */
  lemma {:induction false} MaxReadyIsMaximum(states: seq<ResourceState>)
    ensures MaxReady(states).None? <==> forall s <- states :: s.ready.None?
    ensures MaxReady(states).Some? ==> exists s <- states :: s.ready == MaxReady(states)
    ensures forall s <- states :: s.ready.Some? ==> MaxReady(states).Some? && s.ready.value <= MaxReady(states).value
  {
    if states != [] {
      var last := |states| - 1;
      MaxReadyIsMaximum(states[..last]);
      assert states == states[..last] + [states[last]];
    }
  }

  /** The composition after one aggregation that writes. */
  function Aggregated(c: Composition, view: View, now: Time): Composition
    requires c.current.Some?
  {
    var latest := if view == [] then c.current.value.reconciled else MaxReady(States(view));
    c.(current := Some(c.current.value.(
      ready := if AllReady(view) then latest else None,
      reconciled := if AllSettled(c, view) then Some(now) else None)))
  }

  predicate ShouldAggregate(c: Composition, view: View) {
    && !StatusTerminal(c)
    && |view| == |c.current.value.slices|
    && !Aborts(c, view)
    && !StatusInSync(c, AllSettled(c, view), AllReady(view))
  }

  lemma {:induction false} ReadyStates(view: View, state: ResourceState)
    requires AllReady(view) && state in States(view)
    ensures state.ready.Some?
  {
    var n := |view| - 1;
    assert view[..n] <= view;
    if state in States(view[..n]) {
      ReadyStates(view[..n], state);
    } else {
      var k :| 0 <= k < |view[n].value.status| && view[n].value.status[k] == state;
    }
  }

  /** What an aggregation records: Reconciled if every existing slice is settled, and the latest of the
      ready times if all are ready. */
  lemma AggregatedIsLatest(c: Composition, view: View, now: Time)
    requires c.current.Some? && view != []
    ensures var s := Aggregated(c, view, now).current.value;
            && (s.reconciled.Some? <==> AllSettled(c, view))
            && (s.ready.Some? <==> AllReady(view) && States(view) != [])
            && (s.ready.Some? ==> (exists t <- States(view) :: t.ready == s.ready) && forall t <- States(view) :: t.ready.Some? && t.ready.value <= s.ready.value)
  {
    MaxReadyIsMaximum(States(view));
    if AllReady(view) {
      forall t <- States(view) ensures t.ready.Some? { ReadyStates(view, t); }
      if States(view) != [] {
        assert States(view)[0] in States(view);
      }
    }
  }

  /** Reconciled is recorded if and only if every existing slice has its states and all of them are
      reconciled and, when the composition is being deleted and does not orphan, deleted. */
  lemma ReconciledExactly(c: Composition, view: View, now: Time)
    requires c.current.Some?
    ensures Aggregated(c, view, now).current.Some?
    ensures var r := Aggregated(c, view, now).current.value.reconciled;
            && (r.Some? ==> r.value == now)
            && (r.Some? <==> forall k :: 0 <= k < |view| && view[k].Some? ==>
                  var s := view[k].value;
                  && (s.status == [] ==> s.spec.resources == [])
                  && forall i :: 0 <= i < |s.status| ==> s.status[i].reconciled && (c.deleting && !c.orphan ==> s.status[i].deleted))
  {
    forall k | 0 <= k < |view| && view[k].Some?
      ensures var s := view[k].value;
              SliceSettled(c, s) <==>
                && (s.status == [] ==> s.spec.resources == [])
                && forall i :: 0 <= i < |s.status| ==> s.status[i].reconciled && (c.deleting && !c.orphan ==> s.status[i].deleted)
    {
    }
  }

  /** A live composition becomes reconciled as soon as all of its states are. */
  lemma LiveReconciledExactly(c: Composition, view: View, now: Time)
    requires c.current.Some? && !c.deleting && forall k :: 0 <= k < |view| ==> view[k].Some? && (view[k].value.status == [] ==> view[k].value.spec.resources == [])
    ensures Aggregated(c, view, now).current.Some?
    ensures Aggregated(c, view, now).current.value.reconciled == Some(now) <==>
            forall k :: 0 <= k < |view| ==> forall i :: 0 <= i < |view[k].value.status| ==> view[k].value.status[i].reconciled
  {
    ReconciledExactly(c, view, now);
  }

  /** Ready is recorded if and only if every existing slice has its states, all of them are ready, and
      there is one; a composition without slices becomes ready with its earlier reconciliation. */
  lemma ReadyExactly(c: Composition, view: View, now: Time)
    requires c.current.Some?
    ensures Aggregated(c, view, now).current.Some?
    ensures var r := Aggregated(c, view, now).current.value.ready;
            if view == [] then r == c.current.value.reconciled
            else r.Some? <==>
              && (forall k :: 0 <= k < |view| && view[k].Some? ==>
                    && (view[k].value.status == [] ==> view[k].value.spec.resources == [])
                    && forall i :: 0 <= i < |view[k].value.status| ==> view[k].value.status[i].ready.Some?)
              && exists k :: 0 <= k < |view| && view[k].Some? && view[k].value.status != []
  {
    if view != [] {
      AggregatedIsLatest(c, view, now);
      StatesAreThere(view);
      forall k | 0 <= k < |view| && view[k].Some?
        ensures SliceReady(view[k].value) <==>
                  && (view[k].value.status == [] ==> view[k].value.spec.resources == [])
                  && forall i :: 0 <= i < |view[k].value.status| ==> view[k].value.status[i].ready.Some?
      {
      }
    }
  }

  lemma {:induction false} StatesAreThere(view: View)
    ensures States(view) != [] <==> exists k :: 0 <= k < |view| && view[k].Some? && view[k].value.status != []
  {
    if view != [] {
      var n := |view| - 1;
      StatesAreThere(view[..n]);
      if k :| 0 <= k < n && view[..n][k].Some? && view[..n][k].value.status != [] {
        assert view[k].Some? && view[k].value.status != [];
      }
      if k :| 0 <= k < |view| && view[k].Some? && view[k].value.status != [] {
        assert k < n ==> view[..n][k].Some?;
      }
    }
  }

  /** When an aggregation is due: Current is synthesized and not both ready and reconciled yet, no slice of
      a live composition is missing before the first one without states, and the record differs from what
      the slices show. */
  lemma AggregationDueExactly(c: Composition, view: View)
    requires c.current.Some? && |view| == |c.current.value.slices|
    requires c.deleting || forall k :: 0 <= k < |view| ==> view[k].Some?
    ensures var s, d := c.current.value, Aggregated(c, view, 0).current;
            d.Some? &&
            (ShouldAggregate(c, view) <==>
              && s.synthesized.Some? && (s.ready.None? || s.reconciled.None?)
              && (s.reconciled.Some? != d.value.reconciled.Some? || s.ready.Some? != AllReady(view)))
  {
    if !c.deleting {
      assert !Aborts(c, view);
    }
  }

  /** A missing slice stops the aggregation of a live composition unless one without states comes first,
      and never that of a deleting one. */
  lemma MissingSliceAborts(c: Composition, view: View, k: nat)
    requires k < |view| && view[k].None?
    requires forall i :: 0 <= i < k ==> view[i].Some? && (view[i].value.status == [] ==> view[i].value.spec.resources == [])
    ensures Aborts(c, view) <==> !c.deleting
  {
    if !c.deleting {
      assert Readable(view[..k]);
    }
  }

  /** Repeating an aggregation on the same slices writes again exactly when everything counts as ready
      but there is no time to record: for an empty synthesis before its first reconciliation, and for
      slices that are all gone or empty. */
  lemma AggregationSettlesExactly(c: Composition, view: View, now: Time)
    requires ShouldAggregate(c, view)
    ensures ShouldAggregate(Aggregated(c, view, now), view) <==>
            AllReady(view) && if view == [] then c.current.value.reconciled.None? else States(view) == []
  {
    var d := Aggregated(c, view, now);
    if view != [] {
      AggregatedIsLatest(c, view, now);
    }
    assert Aborts(d, view) == Aborts(c, view);
    assert AllSettled(d, view) == AllSettled(c, view) by {
      assert forall i :: 0 <= i < |view| && view[i].Some? ==> SliceSettled(d, view[i].value) == SliceSettled(c, view[i].value);
    }
  }

  lemma MaxReadyOfConcat(a: seq<ResourceState>, b: seq<ResourceState>, k: nat)
    requires k < |b|
    ensures MaxReady(a + b[..k + 1]) == Later(MaxReady(a + b[..k]), b[k].ready)
  {
    assert (a + b[..k + 1])[..|a| + k] == a + b[..k];
  }

  /** The inner loop: one slice's states. */
  method FoldStates(c: Composition, status: seq<ResourceState>, ghost seen: seq<ResourceState>, latest0: Option<Time>)
    returns (ready: bool, reconciled: bool, latest: Option<Time>)
    requires latest0 == MaxReady(seen)
    ensures reconciled <==> forall k :: 0 <= k < |status| ==> !ResourceNotReconciled(c, status[k])
    ensures ready <==> forall k :: 0 <= k < |status| ==> status[k].ready.Some?
    ensures latest == MaxReady(seen + status)
  {
    ready, reconciled, latest := true, true, latest0;
    assert seen + status[..0] == seen;
    for k := 0 to |status|
      invariant reconciled <==> forall j :: 0 <= j < k ==> !ResourceNotReconciled(c, status[j])
      invariant ready <==> forall j :: 0 <= j < k ==> status[j].ready.Some?
      invariant latest == MaxReady(seen + status[..k])
    {
      MaxReadyOfConcat(seen, status, k);
      if ResourceNotReconciled(c, status[k]) {
        reconciled := false;
      }
      if status[k].ready.None? {
        ready := false;
      }
      if status[k].ready.Some? && (latest.None? || latest.value < status[k].ready.value) {
        latest := status[k].ready;
      }
    }
    assert status[..|status|] == status;
  }

  lemma ExtendView(c: Composition, view: View, i: nat)
    requires i < |view|
    ensures AllSettled(c, view[..i + 1]) <==> AllSettled(c, view[..i]) && (view[i].Some? ==> SliceSettled(c, view[i].value))
    ensures AllReady(view[..i + 1]) <==> AllReady(view[..i]) && (view[i].Some? ==> SliceReady(view[i].value))
    ensures Readable(view[..i + 1]) <==> Readable(view[..i]) && view[i].Some? && !Lagging(view[i].value)
    ensures States(view[..i + 1]) == States(view[..i]) + if view[i].Some? then view[i].value.status else []
  {
    assert view[..i + 1] == view[..i] + [view[i]];
    assert view[..i + 1][..i] == view[..i];
    assert view[..i + 1][i] == view[i];
  }

  lemma LaggingHidesMissing(c: Composition, view: View, i: nat)
    requires i < |view| && view[i].Some? && Lagging(view[i].value)
    requires c.deleting || Readable(view[..i])
    ensures !Aborts(c, view) && !AllSettled(c, view) && !AllReady(view)
  {
    if !c.deleting {
      assert forall k :: 0 <= k < i ==> view[..i][k] == view[k];
      forall k | 0 <= k < |view| && view[k].None? ensures !Readable(view[..k]) {
        assert view[..k][i] == view[i];
      }
    }
  }

  lemma ReadableDoesNotAbort(c: Composition, view: View)
    requires c.deleting || Readable(view)
    ensures !Aborts(c, view)
  {
  }

  /** The controller's fold over the referenced slices. */
  method FoldSlices(c: Composition, view: View)
    returns (aborted: bool, ready: bool, reconciled: bool, latest: Option<Time>)
    ensures aborted <==> Aborts(c, view)
    ensures !aborted ==> (reconciled <==> AllSettled(c, view))
    ensures !aborted ==> (ready <==> AllReady(view))
    ensures !aborted && ready ==> latest == MaxReady(States(view))
  {
    aborted, ready, reconciled, latest := false, true, true, None;
    for i := 0 to |view|
      invariant !aborted
      invariant c.deleting || Readable(view[..i])
      invariant reconciled <==> AllSettled(c, view[..i])
      invariant ready <==> AllReady(view[..i])
      invariant latest == MaxReady(States(view[..i]))
    {
      ExtendView(c, view, i);
      if view[i].None? {
        if c.deleting {
          assert States(view[..i]) + [] == States(view[..i]);
          continue;
        }
        aborted := true;
        return;
      }
      var s := view[i].value;
      if Lagging(s) {
        LaggingHidesMissing(c, view, i);
        return false, false, false, latest;
      }
      var sliceReady, sliceReconciled, sliceLatest := FoldStates(c, s.status, States(view[..i]), latest);
      ready, reconciled, latest := ready && sliceReady, reconciled && sliceReconciled, sliceLatest;
    }
    assert view[..|view|] == view;
    ReadableDoesNotAbort(c, view);
  }
}
