/** Garbage collection of resource slices: the pure decisions. */
module SliceCleanup {
  import opened Api

  predicate References(s: Option<Synthesis>, name: SliceName) {
    s.Some? && name in s.value.slices
  }

  predicate Referenced(c: Composition, name: SliceName) {
    References(c.current, name) || References(c.previous, name)
  }

  /** The reader is older than the slice. */
  predicate Stale(c: Composition, spec: SliceSpec) {
    c.current.None? || spec.generation > c.current.value.observedGeneration
  }

  predicate HasBeenRetried(c: Composition, spec: SliceSpec)
    requires c.current.Some?
  {
    spec.attempt != 0 && c.current.value.attempts > spec.attempt && spec.uuid == c.current.value.uuid
  }

  predicate FromOldComposition(c: Composition, spec: SliceSpec)
    requires c.current.Some?
  {
    spec.generation < c.current.value.observedGeneration
  }

  predicate ShouldDeleteSlice(c: Composition, name: SliceName, spec: SliceSpec) {
    && !Stale(c, spec)
    && (|| HasBeenRetried(c, spec)
        || (c.current.value.synthesized.Some? && c.deleting)
        || (!Referenced(c, name) && FromOldComposition(c, spec)))
  }

  predicate ResourcesRemain(c: Composition, slice: ResourceSlice) {
    || (slice.status == [] && slice.spec.resources != [])
    || exists i :: 0 <= i < |slice.status| && !slice.status[i].deleted && !c.orphan
  }

  predicate ShouldReleaseFinalizer(c: Composition, name: SliceName, slice: ResourceSlice) {
    && !Stale(c, slice.spec)
    && (|| (slice.spec.attempt != 0 && c.current.value.attempts > slice.spec.attempt)
        || (c.current.value.synthesized.Some? && (!ResourcesRemain(c, slice) || !Referenced(c, name))))
  }

  datatype Decision = Decision(doNotDelete: bool, holdFinalizer: bool) | DeferBy(wait: nat)

  /** A composition that does not exist protects nothing. */
  function CheckState(c: Option<Composition>, name: SliceName, slice: ResourceSlice): Decision {
    if c.None? then Decision(false, false)
    else Decision(!ShouldDeleteSlice(c.value, name, slice.spec), !ShouldReleaseFinalizer(c.value, name, slice))
  }

  const MIN_AGE: nat := 5

  function CleanupDecision(hasOwner: bool, cached: Option<Composition>, stored: Option<Composition>,
                           name: SliceName, slice: ResourceSlice, age: nat): Decision {
    if !hasOwner then Decision(false, false)
    else
      var informer := CheckState(cached, name, slice);
      if informer.doNotDelete && informer.holdFinalizer then informer
      else if age < MIN_AGE then DeferBy(MIN_AGE - age)
      else CheckState(stored, name, slice)
  }

  /** The cache can only delay: whatever an owned slice's decision permits, the uncached state permits. */
  lemma CacheOnlyVetoes(cached: Option<Composition>, stored: Option<Composition>, name: SliceName, slice: ResourceSlice, age: nat)
    ensures var d, truth := CleanupDecision(true, cached, stored, name, slice, age), CheckState(stored, name, slice);
            d.Decision? && (!d.doNotDelete || !d.holdFinalizer) ==> d == truth
  {
  }

  // ---------- The decisions, in the fields that they read ----------

  /** Every resource of the slice is recorded as deleted, or left on purpose. */
  ghost predicate EverythingGone(slice: ResourceSlice, orphan: bool) {
    (slice.status == [] ==> slice.spec.resources == []) && (orphan || forall i :: 0 <= i < |slice.status| ==> slice.status[i].deleted)
  }

  /** Another attempt has been recorded since the slice was labelled. */
  predicate Outdated(c: Composition, spec: SliceSpec) {
    c.current.Some? && 0 < spec.attempt < c.current.value.attempts
  }

  predicate Named(s: Option<Synthesis>, name: SliceName) {
    s.Some? && exists i :: 0 <= i < |s.value.slices| && s.value.slices[i] == name
  }

  /** A slice is chosen for deletion if and only if it is not newer than Current and was overtaken within
      its own synthesis, or the composition is being deleted after its synthesis, or the slice is older
      than Current and neither synthesis refers to it. */
  lemma ChosenExactly(c: Composition, name: SliceName, spec: SliceSpec)
    ensures ShouldDeleteSlice(c, name, spec) <==>
            && c.current.Some? && spec.generation <= c.current.value.observedGeneration
            && (|| (Outdated(c, spec) && spec.uuid == c.current.value.uuid)
                || (c.deleting && c.current.value.synthesized.Some?)
                || (spec.generation < c.current.value.observedGeneration && !Named(c.current, name) && !Named(c.previous, name)))
  {
  }

  /** A slice is released if and only if it is not newer than Current and was overtaken, or Current is
      synthesized and everything in the slice is gone or neither synthesis refers to it. */
  lemma ReleasedExactly(c: Composition, name: SliceName, slice: ResourceSlice)
    ensures ShouldReleaseFinalizer(c, name, slice) <==>
            && c.current.Some? && slice.spec.generation <= c.current.value.observedGeneration
            && (|| Outdated(c, slice.spec)
                || (c.current.value.synthesized.Some? && (EverythingGone(slice, c.orphan) || (!Named(c.current, name) && !Named(c.previous, name)))))
  {
  }

  /** What the controller decides: a slice without an owner, or whose composition is gone, may go; a cache
      that forbids everything is trusted; otherwise a young slice waits, and an old one is judged by the
      uncached state. */
  lemma CleanupExactly(hasOwner: bool, cached: Option<Composition>, stored: Option<Composition>, name: SliceName, slice: ResourceSlice, age: nat)
    ensures var d := CleanupDecision(hasOwner, cached, stored, name, slice, age);
            var vetoed := cached.Some? && !ShouldDeleteSlice(cached.value, name, slice.spec) && !ShouldReleaseFinalizer(cached.value, name, slice);
            && (!hasOwner ==> d == Decision(false, false))
            && (hasOwner && vetoed ==> d == Decision(true, true))
            && (hasOwner && !vetoed && age < 5 ==> d == DeferBy(5 - age))
            && (hasOwner && !vetoed && age >= 5 && stored.None? ==> d == Decision(false, false))
            && (hasOwner && !vetoed && age >= 5 && stored.Some? ==>
                  d.Decision? && (d.doNotDelete <==> !ShouldDeleteSlice(stored.value, name, slice.spec))
                  && (d.holdFinalizer <==> !ShouldReleaseFinalizer(stored.value, name, slice)))
  {
  }
}
