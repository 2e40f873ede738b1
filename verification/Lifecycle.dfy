/** The decisions and status rewrites of the synthesis lifecycle, as functions of a composition. */
module Lifecycle {
  import opened Api
  import opened Inputs

  // ---------- Inputs ----------

  /** Every binding that the synthesizer refers to has an observed revision. */
  predicate InputsExist(c: Composition, synth: Synthesizer) {
    forall b <- c.bindings :: (exists r <- synth.refs :: r.key == b) ==> exists v <- c.inputRevisions :: v.key == b
  }

  /** Some input stems from an older synthesizer, or two inputs declare different revisions. */
  predicate InputsOutOfLockstep(c: Composition, synth: Synthesizer) {
    || (exists v <- c.inputRevisions :: v.synthesizerGeneration.Some? && v.synthesizerGeneration.value < synth.generation)
    || (exists v <- c.inputRevisions, w <- c.inputRevisions :: v.revision.Some? && w.revision.Some? && v.revision != w.revision)
  }

  method CheckInputsOutOfLockstep(c: Composition, synth: Synthesizer) returns (out: bool)
    ensures out <==> InputsOutOfLockstep(c, synth)
  {
    var revs := c.inputRevisions;
    var max: Option<int> := None;
    for i := 0 to |revs|
      invariant forall j :: 0 <= j < i ==> revs[j].synthesizerGeneration.None? || revs[j].synthesizerGeneration.value >= synth.generation
      invariant max.None? ==> forall j :: 0 <= j < i ==> revs[j].revision.None?
      invariant max.Some? ==> exists v <- revs :: v.revision == max
    {
      if revs[i].synthesizerGeneration.Some? && revs[i].synthesizerGeneration.value < synth.generation {
        return true;
      }
      if revs[i].revision.Some? && (max.None? || revs[i].revision.value > max.value) {
        max := revs[i].revision;
        assert revs[i] in revs;
      }
    }
    if max.None? {
      return false;
    }
    for i := 0 to |revs|
      invariant forall j :: 0 <= j < i ==> revs[j].revision.None? || revs[j].revision == max
    {
      if revs[i].revision.Some? && max != revs[i].revision {
        assert revs[i] in revs;
        return true;
      }
    }
    out := false;
  }

  method CheckInputsExist(c: Composition, synth: Synthesizer) returns (exist: bool)
    ensures exist <==> InputsExist(c, synth)
  {
    var refs: set<string> := {};
    for i := 0 to |synth.refs|
      invariant forall k :: k in refs <==> exists j :: 0 <= j < i && synth.refs[j].key == k
    {
      refs := refs + {synth.refs[i].key};
    }
    for i := 0 to |c.bindings|
      invariant forall j :: 0 <= j < i && c.bindings[j] in refs ==> exists v <- c.inputRevisions :: v.key == c.bindings[j]
    {
      if c.bindings[i] in refs {
        var found := false;
        for j := 0 to |c.inputRevisions|
          invariant found <==> exists k :: 0 <= k < j && c.inputRevisions[k].key == c.bindings[i]
        {
          if c.inputRevisions[j].key == c.bindings[i] {
            found := true;
            break;
          }
        }
        if !found {
          assert c.bindings[i] in c.bindings;
          return false;
        }
      }
    }
    exist := true;
  }

  // ---------- Swapping ----------

  predicate ShouldSwap(c: Composition, synth: Synthesizer) {
    && (|| c.current.None?
        || c.current.value.observedGeneration != c.generation
        || (&& !RevisionsEqual(synth.refs, c.inputRevisions, c.current.value.inputRevisions)
            && c.current.value.synthesized.Some?
            && !c.ignoreSideEffects))
    && (c.deleting || (InputsExist(c, synth) && !InputsOutOfLockstep(c, synth)))
  }

  function FreshSynthesis(generation: nat, now: Time): Synthesis {
    Synthesis(NO_UUID, generation, 0, Some(now), None, None, None, None, 0, [], [], [], false)
  }

  /** A successful Current becomes Previous; Current starts over. */
  function Swapped(c: Composition, now: Time): Composition {
    c.(previous := if c.current.Some? && Succeeded(c.current.value) then c.current else c.previous,
       current := Some(FreshSynthesis(c.generation, now)))
  }

  /** A swap settles what asked for it, so it is not repeated while its synthesis is in progress; it
      leaves the composition waiting for dispatch. */
  lemma SwapSettles(c: Composition, synth: Synthesizer, now: Time)
    ensures !ShouldSwap(Swapped(c, now), synth)
    ensures AwaitsDispatch(Swapped(c, now)) && !Active(Swapped(c, now))
    ensures var s := Swapped(c, now).current.value;
            s.observedGeneration == c.generation && s.initialized == Some(now) && s.attempts == 0 && s.synthesized.None? && !s.deferred
  {
  }

  /** Marking settles the deletion logic: neither a revert nor another mark is due. */
  lemma MarkSettles(c: Composition, uuid: Uuid, now: Time)
    requires !ShouldRevert(c) && ShouldMark(c)
    ensures var d := Marked(c, uuid, now);
            && !ShouldRevert(d) && !ShouldMark(d) && d.previous == c.previous
            && d.current.value.slices == c.current.value.slices && d.current.value.results == c.current.value.results
            && (IsReconciling(d) <==> !(InProgress(c.current.value)))
            && d.current.value.ready.None? && d.current.value.uuid == uuid && d.current.value.observedGeneration == c.generation
            && (d.current.value.reconciled.Some? <==> c.current.value.synthesized.None?)
  {
  }

  /** What the inputs have to be for a synthesis: every binding that a ref mentions was observed, none stems
      from an older synthesizer, and no two declare different revisions. */
  ghost predicate InputsReady(c: Composition, synth: Synthesizer) {
    && (forall i, j :: 0 <= i < |c.bindings| && 0 <= j < |synth.refs| && synth.refs[j].key == c.bindings[i] ==> c.bindings[i] in Keys(c.inputRevisions))
    && (forall v <- c.inputRevisions :: v.synthesizerGeneration.Some? ==> v.synthesizerGeneration.value >= synth.generation)
    && (forall v <- c.inputRevisions, w <- c.inputRevisions :: v.revision.Some? && w.revision.Some? ==> v.revision.value == w.revision.value)
  }

  lemma InputsReadyExactly(c: Composition, synth: Synthesizer)
    ensures InputsExist(c, synth) && !InputsOutOfLockstep(c, synth) <==> InputsReady(c, synth)
  {
    forall i | 0 <= i < |c.bindings| ensures c.bindings[i] in Keys(c.inputRevisions) <==> exists v <- c.inputRevisions :: v.key == c.bindings[i] {
      if v :| v in c.inputRevisions && v.key == c.bindings[i] {
        var k :| 0 <= k < |c.inputRevisions| && c.inputRevisions[k] == v;
      }
      if c.bindings[i] in Keys(c.inputRevisions) {
        var k :| 0 <= k < |c.inputRevisions| && c.inputRevisions[k].key == c.bindings[i];
        assert c.inputRevisions[k] in c.inputRevisions;
      }
    }
    if InputsExist(c, synth) {
      forall i, j | 0 <= i < |c.bindings| && 0 <= j < |synth.refs| && synth.refs[j].key == c.bindings[i] ensures c.bindings[i] in Keys(c.inputRevisions) {
        assert synth.refs[j] in synth.refs && c.bindings[i] in c.bindings;
      }
    }
    if InputsReady(c, synth) {
      forall b <- c.bindings | exists r <- synth.refs :: r.key == b ensures exists v <- c.inputRevisions :: v.key == b {
        var r :| r in synth.refs && r.key == b;
        var i :| 0 <= i < |c.bindings| && c.bindings[i] == b;
        var j :| 0 <= j < |synth.refs| && synth.refs[j] == r;
      }
    }
  }

  /** Some input that is not deferred changed since the synthesis. */
  ghost predicate InputChanged(c: Composition, refs: seq<Ref>) {
    c.current.Some? && exists x, y :: x in c.inputRevisions && y in c.current.value.inputRevisions && Differ(refs, x, y)
  }

  ghost predicate Differ(refs: seq<Ref>, x: InputRevision, y: InputRevision) {
    x.key == y.key && !Deferred(refs, x.key) && !SameRevision(x, y)
  }

  ghost predicate SameInputs(c: Composition) {
    c.current.Some? ==>
      DistinctKeys(c.inputRevisions) && DistinctKeys(c.current.value.inputRevisions) && Keys(c.inputRevisions) == Keys(c.current.value.inputRevisions)
  }

  /** When a swap is due, for lists over the same keys: there is no Current, the spec changed, or a
      non-deferred input changed after the synthesis and side effects are not ignored; and the inputs are
      ready, or the composition is being deleted. */
  lemma SwapDueExactly(c: Composition, synth: Synthesizer)
    requires SameInputs(c)
    ensures ShouldSwap(c, synth) <==>
            && (|| c.current.None?
                || c.current.value.observedGeneration != c.generation
                || (c.current.value.synthesized.Some? && !c.ignoreSideEffects && InputChanged(c, synth.refs)))
            && (c.deleting || InputsReady(c, synth))
  {
    InputsReadyExactly(c, synth);
    if c.current.Some? {
      ComparisonIsAgreement(synth.refs, c.inputRevisions, c.current.value.inputRevisions);
      assert AgreeAsMaps(synth.refs, c.inputRevisions, c.current.value.inputRevisions) <==> !InputChanged(c, synth.refs) by {
        if InputChanged(c, synth.refs) {
          var x, y :| x in c.inputRevisions && y in c.current.value.inputRevisions && Differ(synth.refs, x, y);
        } else {
          forall x, y | x in c.inputRevisions && y in c.current.value.inputRevisions && x.key == y.key && !Deferred(synth.refs, x.key) ensures SameRevision(x, y) {
            assert !Differ(synth.refs, x, y);
          }
        }
      }
    }
  }

  /** A composition at rest: synthesized at its generation, with inputs as they were for each key that is
      not deferred. */
  ghost predicate AtRest(c: Composition, refs: seq<Ref>) {
    && c.current.Some? && c.current.value.synthesized.Some? && c.current.value.observedGeneration == c.generation && SameInputs(c)
    && forall x, y :: x in c.inputRevisions && y in c.current.value.inputRevisions && x.key == y.key && !Deferred(refs, x.key) ==>
         x.revision == y.revision && (x.revision.None? ==> x.resourceVersion == y.resourceVersion)
  }

  /** At rest no swap is due. */
  lemma NoSwapAtRest(c: Composition, synth: Synthesizer)
    requires AtRest(c, synth.refs)
    ensures !ShouldSwap(c, synth)
  {
    SwapDueExactly(c, synth);
  }

  /** A change of a non-deferred input makes a swap due, unless side effects are ignored; a change of a
      deferred one does not. */
  lemma SwapOnChangeExactly(c: Composition, synth: Synthesizer, before: InputRevision, r: InputRevision)
    requires AtRest(c, synth.refs) && before in c.inputRevisions && before.key == r.key
    requires before.revision != r.revision || (r.revision.None? && before.resourceVersion != r.resourceVersion)
    requires c.deleting || InputsReady(c.(inputRevisions := WithRevision(c.inputRevisions, r)), synth)
    ensures ShouldSwap(c.(inputRevisions := WithRevision(c.inputRevisions, r)), synth) <==> !c.ignoreSideEffects && !Deferred(synth.refs, r.key)
  {
    var d, s := c.(inputRevisions := WithRevision(c.inputRevisions, r)), c.current.value.inputRevisions;
    RecordingKeepsKeysDistinct(c.inputRevisions, r);
    RecordingKeepsKeys(c.inputRevisions, r);
    var k :| 0 <= k < |c.inputRevisions| && c.inputRevisions[k] == before;
    assert before.key in Keys(s);
    var i :| 0 <= i < |s| && s[i].key == before.key;
    assert s[i] in s && (!SameRevision(r, s[i]) || Deferred(synth.refs, r.key));
    SwapDueExactly(d, synth);
    if !Deferred(synth.refs, r.key) {
      assert Differ(synth.refs, r, s[i]);
    }
  }

  lemma RecordingKeepsKeys(s: seq<InputRevision>, r: InputRevision)
    ensures Keys(WithRevision(s, r)) == Keys(s) + {r.key}
  {
    var i, t := IndexOfKey(s, r.key), WithRevision(s, r);
    assert t[i].key == r.key;
    forall k | k in Keys(s) ensures k in Keys(t) {
      var j :| 0 <= j < |s| && s[j].key == k;
      assert t[j].key == k;
    }
    forall k | k in Keys(t) ensures k in Keys(s) + {r.key} {
      var j :| 0 <= j < |t| && t[j].key == k;
      assert j != i && j < |s| ==> s[j].key == k;
    }
  }

  /** So does an input that was not there before. */
  lemma SwapOnNewInput(c: Composition, synth: Synthesizer, r: InputRevision)
    requires AtRest(c, synth.refs) && r.key !in Keys(c.inputRevisions) && !c.ignoreSideEffects
    requires |c.inputRevisions| == |c.current.value.inputRevisions|
    requires c.deleting || InputsReady(c.(inputRevisions := WithRevision(c.inputRevisions, r)), synth)
    ensures ShouldSwap(c.(inputRevisions := WithRevision(c.inputRevisions, r)), synth)
  {
    InputsReadyExactly(c.(inputRevisions := WithRevision(c.inputRevisions, r)), synth);
    assert IndexOfKey(c.inputRevisions, r.key) == |c.inputRevisions|;
  }

  /** The slices of the newest successful synthesis, according to the status. */
  function NewestSlices(c: Composition): Option<seq<SliceName>> {
    if c.current.Some? && Succeeded(c.current.value) then Some(c.current.value.slices)
    else if c.previous.Some? then Some(c.previous.value.slices)
    else None
  }

  // ---------- Dispatch, attempts and commit ----------

  /** The server's `test` against null passes when the UUID is absent. */
  predicate AwaitsDispatch(c: Composition) {
    c.current.Some? && c.current.value.uuid == NO_UUID
  }

  function Dispatched(c: Composition, uuid: Uuid): Composition
    requires c.current.Some?
  {
    c.(current := Some(c.current.value.(uuid := uuid)))
  }

  /** A synthesis that takes part in the concurrency limit. */
  predicate Active(c: Composition) {
    c.current.Some? && InProgress(c.current.value) && c.current.value.uuid != NO_UUID
  }

  predicate MayRecordAttempt(c: Composition, uuid: Uuid) {
    c.current.Some? && c.current.value.uuid == uuid && InProgress(c.current.value)
  }

  function AttemptRecorded(c: Composition, attempts: nat, now: Time): Composition
    requires c.current.Some?
  {
    c.(current := Some(c.current.value.(attempts := attempts, podCreation := Some(now))))
  }

  /** What the pod's environment tells its executor. */
  datatype Env = Env(uuid: Uuid, attempt: nat)

  predicate SkipSynthesis(c: Composition, env: Env) {
    || c.current.None?
    || c.current.value.synthesized.Some?
    || c.current.value.uuid != env.uuid
    || (c.current.value.attempts > 0 && c.current.value.attempts > env.attempt)
  }

  /** The result of one executor. */
  datatype Output = Output(slices: seq<SliceName>, results: seq<Result>, inputRevisions: seq<InputRevision>, synthesizerGeneration: int)

  function Committed(c: Composition, o: Output, now: Time): Composition
    requires c.current.Some?
  {
    c.(current := Some(c.current.value.(
      synthesized := Some(now),
      slices := o.slices,
      observedSynthesizerGeneration := o.synthesizerGeneration,
      inputRevisions := o.inputRevisions,
      results := c.current.value.results + o.results)))
  }

  // ---------- Deletion ----------

  predicate ShouldRevert(c: Composition) {
    c.previous.Some? && (c.current.None? || InProgress(c.current.value))
  }

  function Reverted(c: Composition): Composition {
    c.(current := c.previous, previous := None)
  }

  predicate ShouldMark(c: Composition) {
    c.current.Some? && (c.current.value.observedGeneration != c.generation || InProgress(c.current.value))
  }

  function Marked(c: Composition, uuid: Uuid, now: Time): Composition
    requires c.current.Some?
  {
    var neverSynthesized := (c.previous.None? || InProgress(c.previous.value)) && InProgress(c.current.value);
    c.(current := Some(c.current.value.(
      observedGeneration := c.generation,
      ready := None,
      uuid := uuid,
      reconciled := if neverSynthesized then Some(now) else None,
      synthesized := Some(now))))
  }

  predicate IsReconciling(c: Composition) {
    c.current.Some? && (c.current.value.reconciled.None? || c.current.value.observedGeneration != c.generation)
  }
}
