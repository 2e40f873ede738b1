/** How a batch of updates changes the stored status of one slice. */
module SliceStatus {
  import opened Api
  import opened StatusPatch

  /** A patch function with its target. */
  datatype StatusUpdate = StatusUpdate(index: nat, wish: Wish)

  datatype Replace = Replace(index: nat, value: ResourceState)

  predicate InRange(updates: seq<StatusUpdate>, n: nat) {
    forall i :: 0 <= i < |updates| ==> updates[i].index < n
  }

  /** The patches for the updates, computed on the status that the worker has seen. */
  function Patches(seen: seq<ResourceState>, updates: seq<StatusUpdate>): seq<Replace>
    requires InRange(updates, |seen|)
  {
    if updates == [] then []
    else
      var u := updates[|updates| - 1];
      var patch := PatchResourceState(u.wish, seen[u.index]);
      Patches(seen, updates[..|updates| - 1]) + if patch.Some? then [Replace(u.index, patch.value)] else []
  }

  method BuildPatches(seen: seq<ResourceState>, updates: seq<StatusUpdate>) returns (patches: seq<Replace>)
    requires InRange(updates, |seen|)
    ensures patches == Patches(seen, updates)
  {
    patches := [];
    for i := 0 to |updates|
      invariant patches == Patches(seen, updates[..i])
    {
      assert updates[..i + 1][..i] == updates[..i];
      var patch := PatchResourceState(updates[i].wish, seen[updates[i].index]);
      if patch.None? {
        continue;
      }
      patches := patches + [Replace(updates[i].index, patch.value)];
    }
    assert updates[..|updates|] == updates;
  }

  /** The server: `replace` needs an existing element, and one failing operation undoes all (sections
      4.3 and 5 of RFC 6902). */
  function ApplyPatches(status: seq<ResourceState>, patches: seq<Replace>): Option<seq<ResourceState>> {
    if patches == [] then Some(status)
    else
      var before, p := ApplyPatches(status, patches[..|patches| - 1]), patches[|patches| - 1];
      if before.Some? && p.index < |before.value| then Some(before.value[p.index := p.value]) else None
  }

  predicate DistinctTargets(updates: seq<StatusUpdate>) {
    forall i, j :: 0 <= i < j < |updates| ==> updates[i].index != updates[j].index
  }

  predicate Targets(updates: seq<StatusUpdate>, i: nat) {
    exists k :: 0 <= k < |updates| && updates[k].index == i
  }

  /** The status after a whole batch. */
  function AfterBatch(seen: seq<ResourceState>, stored: seq<ResourceState>, updates: seq<StatusUpdate>): Option<seq<ResourceState>>
    requires InRange(updates, |seen|)
  {
    ApplyPatches(stored, Patches(seen, updates))
  }

  /** What the update makes of its position. */
  function Patched(seen: seq<ResourceState>, stored: seq<ResourceState>, u: StatusUpdate): ResourceState
    requires u.index < |seen| == |stored|
  {
    var patch := PatchResourceState(u.wish, seen[u.index]);
    if patch.Some? then patch.value else stored[u.index]
  }

  lemma BatchSnoc(seen: seq<ResourceState>, stored: seq<ResourceState>, rest: seq<StatusUpdate>, u: StatusUpdate)
    requires |seen| == |stored| && InRange(rest, |seen|) && u.index < |seen|
    requires AfterBatch(seen, stored, rest).Some? && |AfterBatch(seen, stored, rest).value| == |stored|
    ensures var before := AfterBatch(seen, stored, rest).value;
            AfterBatch(seen, stored, rest + [u]) ==
            Some(if PatchResourceState(u.wish, seen[u.index]).Some? then before[u.index := Patched(seen, stored, u)] else before)
  {
    var patch, p := PatchResourceState(u.wish, seen[u.index]), Patches(seen, rest);
    assert (rest + [u])[..|rest|] == rest;
    if patch.Some? {
      assert (p + [Replace(u.index, patch.value)])[..|p|] == p;
    } else {
      assert Patches(seen, rest + [u]) == p + [];
      assert p + [] == p;
    }
  }

  /** The batch is accepted and leaves every other position alone. */
  lemma {:induction false} BatchSparesOthers(seen: seq<ResourceState>, stored: seq<ResourceState>, updates: seq<StatusUpdate>)
    requires |seen| == |stored| && InRange(updates, |seen|)
    ensures var after := AfterBatch(seen, stored, updates);
            && after.Some? && |after.value| == |stored|
            && forall i :: 0 <= i < |stored| && !Targets(updates, i) ==> after.value[i] == stored[i]
  {
    if updates != [] {
      var n := |updates| - 1;
      var u, rest := updates[n], updates[..n];
      BatchSparesOthers(seen, stored, rest);
      BatchSnoc(seen, stored, rest, u);
      assert updates == rest + [u];
      forall i | 0 <= i < |stored| && !Targets(updates, i) ensures i != u.index && !Targets(rest, i) {
        assert updates[n].index == u.index;
        assert forall k :: 0 <= k < n ==> rest[k] == updates[k];
      }
    }
  }

  /** One more update: its own position is as it makes it, every other is as before. */
  lemma BatchSnocAt(seen: seq<ResourceState>, stored: seq<ResourceState>, rest: seq<StatusUpdate>, u: StatusUpdate, i: nat)
    requires |seen| == |stored| && InRange(rest, |seen|) && u.index < |seen| && i < |stored| && InRange(rest + [u], |seen|)
    ensures var before, after := AfterBatch(seen, stored, rest), AfterBatch(seen, stored, rest + [u]);
            && before.Some? && after.Some? && |before.value| == |after.value| == |stored|
            && (i != u.index ==> after.value[i] == before.value[i])
            && (i == u.index && !Targets(rest, i) ==> after.value[i] == Patched(seen, stored, u))
  {
    BatchSparesOthers(seen, stored, rest);
    BatchSnoc(seen, stored, rest, u);
  }

  lemma {:induction false} BatchHitsTarget(seen: seq<ResourceState>, stored: seq<ResourceState>, updates: seq<StatusUpdate>, k: nat)
    requires |seen| == |stored| && InRange(updates, |seen|) && DistinctTargets(updates) && k < |updates|
    ensures var after := AfterBatch(seen, stored, updates);
            && after.Some? && |after.value| == |stored|
            && after.value[updates[k].index] == Patched(seen, stored, updates[k])
  {
    var n := |updates| - 1;
    var u, rest := updates[n], updates[..n];
    assert updates == rest + [u];
    BatchSnocAt(seen, stored, rest, u, updates[k].index);
    if k < n {
      assert rest[k] == updates[k];
      BatchHitsTarget(seen, stored, rest, k);
    }
  }

  /** A batch with distinct targets changes exactly the targeted positions, each to the value of its own
      patch function on the state the worker has seen. */
  lemma BatchHitsItsTargets(seen: seq<ResourceState>, stored: seq<ResourceState>, updates: seq<StatusUpdate>)
    requires |seen| == |stored| && InRange(updates, |seen|) && DistinctTargets(updates)
    ensures var after := AfterBatch(seen, stored, updates);
            && after.Some? && |after.value| == |stored|
            && (forall i :: 0 <= i < |stored| && !Targets(updates, i) ==> after.value[i] == stored[i])
            && (forall k :: 0 <= k < |updates| ==> after.value[updates[k].index] == Patched(seen, stored, updates[k]))
  {
    BatchSparesOthers(seen, stored, updates);
    forall k | 0 <= k < |updates| ensures AfterBatch(seen, stored, updates).value[updates[k].index] == Patched(seen, stored, updates[k]) {
      BatchHitsTarget(seen, stored, updates, k);
    }
  }

  /** However stale the read: a target ends up as its update wants if and only if the read asked for a
      patch or there was nothing to patch. */
  lemma TargetEndsAsWantedExactly(seen: seq<ResourceState>, stored: seq<ResourceState>, updates: seq<StatusUpdate>, k: nat)
    requires |seen| == |stored| && InRange(updates, |seen|) && DistinctTargets(updates) && k < |updates|
    ensures var after, u := AfterBatch(seen, stored, updates), updates[k];
            && after.Some? && |after.value| == |stored|
            && (OnRecord(u.wish, after.value[u.index]) <==> !OnRecord(u.wish, seen[u.index]) || OnRecord(u.wish, stored[u.index]))
  {
    BatchHitsItsTargets(seen, stored, updates);
  }

  /** So if the worker has seen the stored status, every target ends up as its update wants. */
  lemma FreshBatchStoresWhatIsWanted(stored: seq<ResourceState>, updates: seq<StatusUpdate>, k: nat)
    requires InRange(updates, |stored|) && DistinctTargets(updates) && k < |updates|
    ensures var after, u := AfterBatch(stored, stored, updates), updates[k];
            && after.Some? && |after.value| == |stored|
            && after.value[u.index].reconciled && after.value[u.index].deleted == u.wish.deleted
            && Deref(after.value[u.index].ready) == Deref(u.wish.ready)
  {
    TargetEndsAsWantedExactly(stored, stored, updates, k);
  }

  // ---------- Runs ----------

  /** All versions of one slice. */
  type Versions = seq<ResourceSlice>

  datatype Event =
    | MarkDeleting                                          // any change of metadata
    | Preallocate(base: nat)                                // status update from version `base`
    | SendPatch(base: nat, updates: seq<StatusUpdate>)      // patch computed from version `base`

  function Blank(n: nat): (s: seq<ResourceState>)
    ensures |s| == n
  {
    seq(n, _ => BLANK_STATE)
  }

  function NextVersions(v: Versions, ev: Event): Versions
    requires v != []
  {
    var newest := v[|v| - 1];
    match ev
    case MarkDeleting => v + [newest.(deleting := true)]
    case Preallocate(base) =>
      if base == |v| - 1 && newest.status == [] then v + [newest.(status := Blank(|newest.spec.resources|))] else v
    case SendPatch(base, updates) =>
      if base < |v| && InRange(updates, |v[base].status|) then
        match AfterBatch(v[base].status, newest.status, updates)
        case None => v
        case Some(status) => v + [newest.(status := status)]
      else v
  }

  function RunSlice(spec: SliceSpec, events: seq<Event>): (v: Versions)
    ensures v != []
  {
    if events == [] then [ResourceSlice(spec, false, [])]
    else NextVersions(RunSlice(spec, events[..|events| - 1]), events[|events| - 1])
  }

  ghost predicate VersionsOk(v: Versions, spec: SliceSpec) {
    && (forall i :: 0 <= i < |v| ==> v[i].spec == spec && Aligned(v[i]))
    && (forall i, j :: 0 <= i <= j < |v| && v[i].status != [] ==> v[j].status != [])
  }

  lemma {:induction false} PatchesKeepLength(status: seq<ResourceState>, patches: seq<Replace>)
    ensures ApplyPatches(status, patches).Some? ==> |ApplyPatches(status, patches).value| == |status|
  {
    if patches != [] {
      PatchesKeepLength(status, patches[..|patches| - 1]);
    }
  }

  lemma {:induction false} RunKeepsVersionsOk(spec: SliceSpec, events: seq<Event>)
    ensures VersionsOk(RunSlice(spec, events), spec)
  {
    if events != [] {
      var v, ev := RunSlice(spec, events[..|events| - 1]), events[|events| - 1];
      RunKeepsVersionsOk(spec, events[..|events| - 1]);
      if ev.SendPatch? && ev.base < |v| && InRange(ev.updates, |v[ev.base].status|) {
        PatchesKeepLength(v[|v| - 1].status, Patches(v[ev.base].status, ev.updates));
      }
    }
  }

  /** The first batch finds a blank state for each manifest: an unallocated status is allocated from its
      newest version, and only then. */
  lemma PreallocationExactly(v: Versions, base: nat)
    requires v != []
    ensures var newest, w := v[|v| - 1], NextVersions(v, Preallocate(base));
            if base == |v| - 1 && newest.status == []
            then w == v + [newest.(status := w[|v|].status)] && |w[|v|].status| == |newest.spec.resources|
                 && forall i :: 0 <= i < |newest.spec.resources| ==> w[|v|].status[i] == ResourceState(false, None, false)
            else w == v
  {
  }

  /** In every version of every run the status list is empty or parallel to the manifests. */
  lemma StatusStaysAligned(spec: SliceSpec, events: seq<Event>, i: nat)
    requires i < |RunSlice(spec, events)|
    ensures RunSlice(spec, events)[i].spec == spec && Aligned(RunSlice(spec, events)[i])
  {
    RunKeepsVersionsOk(spec, events);
  }

  /** Once the worker has seen an allocated status, however stale, every index into it is in range and
      the server accepts the batch. */
  lemma BatchIsAccepted(spec: SliceSpec, events: seq<Event>, base: nat, updates: seq<StatusUpdate>)
    requires base < |RunSlice(spec, events)| && RunSlice(spec, events)[base].status != []
    requires InRange(updates, |spec.resources|)
    ensures var v := RunSlice(spec, events);
            && InRange(updates, |v[base].status|)
            && AfterBatch(v[base].status, v[|v| - 1].status, updates).Some?
  {
    RunKeepsVersionsOk(spec, events);
    var v := RunSlice(spec, events);
    assert v[|v| - 1].status != [];
    BatchSparesOthers(v[base].status, v[|v| - 1].status, updates);
  }

  /** The state of one manifest, if it has been allocated. */
  function FindStatus(slice: ResourceSlice, index: nat): Option<ResourceState> {
    if |slice.status| <= index then None else Some(slice.status[index])
  }

  lemma FindStatusMissesOnlyUnallocated(spec: SliceSpec, events: seq<Event>, i: nat, index: nat)
    requires i < |RunSlice(spec, events)| && index < |spec.resources|
    ensures FindStatus(RunSlice(spec, events)[i], index).None? <==> RunSlice(spec, events)[i].status == []
  {
    RunKeepsVersionsOk(spec, events);
  }
}
