/** Cutting a synthesis into size-bounded slices, and turning removed resources into tombstones. */
module Slicing {
  import opened Api

  /** One object returned by the synthesizer; `encodes` tells whether it can be marshalled. */
  datatype Object = Object(ref: ResourceRef, isPatch: bool, bytes: nat, encodes: bool)

  datatype Attempt<+T> = Ok(value: T) | Err

  function Encode(o: Object): Manifest {
    Manifest(o.ref, o.isPatch, o.bytes, false, true)
  }

  function EncodeAll(outputs: seq<Object>): (m: seq<Manifest>)
    ensures |m| == |outputs| && forall i :: 0 <= i < |m| ==> m[i] == Encode(outputs[i])
  {
    seq(|outputs|, i requires 0 <= i < |outputs| => Encode(outputs[i]))
  }

  function RefsOf(outputs: seq<Object>): set<ResourceRef> {
    set i | 0 <= i < |outputs| :: outputs[i].ref
  }

  // ---------- Tombstones ----------

  /** The deletion of this resource has been recorded as reconciled. */
  predicate Buried(s: ResourceSlice, i: nat)
    requires Aligned(s) && i < |s.spec.resources|
  {
    (s.spec.resources[i].deleted || s.deleting) && s.status != [] && s.status[i].reconciled
  }

  predicate NeedsTombstone(s: ResourceSlice, i: nat, refs: set<ResourceRef>)
    requires Aligned(s) && i < |s.spec.resources|
  {
    !s.spec.resources[i].isPatch && s.spec.resources[i].ref !in refs && !Buried(s, i)
  }

  function TombstonesOf(s: ResourceSlice, n: nat, refs: set<ResourceRef>): seq<Manifest>
    requires Aligned(s) && n <= |s.spec.resources|
  {
    if n == 0 then []
    else
      var tombstone := if NeedsTombstone(s, n - 1, refs) then [s.spec.resources[n - 1].(deleted := true)] else [];
      TombstonesOf(s, n - 1, refs) + tombstone
  }

  predicate AllAligned(previous: seq<ResourceSlice>) {
    forall i :: 0 <= i < |previous| ==> Aligned(previous[i])
  }

  function Tombstones(previous: seq<ResourceSlice>, refs: set<ResourceRef>): seq<Manifest>
    requires AllAligned(previous)
  {
    if previous == [] then []
    else
      var last := previous[|previous| - 1];
      Tombstones(previous[..|previous| - 1], refs) + TombstonesOf(last, |last.spec.resources|, refs)
  }

  /** Everything the new slices have to hold. */
  function Manifests(outputs: seq<Object>, previous: seq<ResourceSlice>): seq<Manifest>
    requires AllAligned(previous)
  {
    EncodeAll(outputs) + Tombstones(previous, RefsOf(outputs))
  }

  lemma {:induction false} TombstoneIn(s: ResourceSlice, n: nat, refs: set<ResourceRef>, i: nat)
    requires Aligned(s) && i < n <= |s.spec.resources| && NeedsTombstone(s, i, refs)
    ensures s.spec.resources[i].(deleted := true) in TombstonesOf(s, n, refs)
  {
    if i < n - 1 {
      TombstoneIn(s, n - 1, refs, i);
    }
  }

  lemma {:induction false} TombstoneInAll(previous: seq<ResourceSlice>, refs: set<ResourceRef>, k: nat, i: nat)
    requires AllAligned(previous) && k < |previous| && i < |previous[k].spec.resources|
    requires NeedsTombstone(previous[k], i, refs)
    ensures previous[k].spec.resources[i].(deleted := true) in Tombstones(previous, refs)
  {
    if k == |previous| - 1 {
      TombstoneIn(previous[k], |previous[k].spec.resources|, refs, i);
    } else {
      TombstoneInAll(previous[..|previous| - 1], refs, k, i);
    }
  }

  lemma {:induction false} TombstonesOfAreSound(s: ResourceSlice, n: nat, refs: set<ResourceRef>, m: Manifest)
    requires Aligned(s) && n <= |s.spec.resources| && m in TombstonesOf(s, n, refs)
    ensures m.deleted && !m.isPatch && m.ref !in refs
    ensures exists i :: 0 <= i < n && NeedsTombstone(s, i, refs) && m == s.spec.resources[i].(deleted := true)
  {
    if m in TombstonesOf(s, n - 1, refs) {
      TombstonesOfAreSound(s, n - 1, refs, m);
    } else {
      assert NeedsTombstone(s, n - 1, refs);
    }
  }

  /** No tombstone names a resource that the new output still has, directly or through a Patch. */
  lemma {:induction false} TombstonesAreSound(previous: seq<ResourceSlice>, refs: set<ResourceRef>, m: Manifest)
    requires AllAligned(previous) && m in Tombstones(previous, refs)
    ensures m.deleted && !m.isPatch && m.ref !in refs
    ensures exists k, i :: 0 <= k < |previous| && 0 <= i < |previous[k].spec.resources| &&
              NeedsTombstone(previous[k], i, refs) && m == previous[k].spec.resources[i].(deleted := true)
  {
    var n := |previous| - 1;
    if m in Tombstones(previous[..n], refs) {
      TombstonesAreSound(previous[..n], refs, m);
      var k, i :| 0 <= k < n && 0 <= i < |previous[..n][k].spec.resources| &&
        NeedsTombstone(previous[..n][k], i, refs) && m == previous[..n][k].spec.resources[i].(deleted := true);
      assert previous[k] == previous[..n][k];
    } else {
      TombstonesOfAreSound(previous[n], |previous[n].spec.resources|, refs, m);
    }
  }

  /** Nothing is forgotten: a resource of the previous slices that is not a Patch is still output, is
      output as a Patch, becomes a tombstone, or was buried already. */
  lemma NothingIsForgotten(outputs: seq<Object>, previous: seq<ResourceSlice>, k: nat, i: nat)
    requires AllAligned(previous) && k < |previous| && i < |previous[k].spec.resources|
    requires !previous[k].spec.resources[i].isPatch
    ensures var m := previous[k].spec.resources[i];
            || (exists n <- Manifests(outputs, previous) :: n.ref == m.ref && !n.isPatch)
            || (exists o <- outputs :: o.ref == m.ref && o.isPatch)
            || Buried(previous[k], i)
  {
    var m, all := previous[k].spec.resources[i], Manifests(outputs, previous);
    if m.ref in RefsOf(outputs) {
      var j :| 0 <= j < |outputs| && outputs[j].ref == m.ref;
      assert outputs[j] in outputs;
      assert all[j] == Encode(outputs[j]);
      assert all[j] in all;
    } else if !Buried(previous[k], i) {
      TombstoneInAll(previous, RefsOf(outputs), k, i);
      assert m.(deleted := true) in all;
    }
  }

  /** Position `i` of slice `k` is still to be deleted: no output names the resource, and it has not been
      recorded as reconciled since it became a tombstone or its slice began to be deleted. */
  ghost predicate Outstanding(outputs: seq<Object>, previous: seq<ResourceSlice>, k: nat, i: nat) {
    && k < |previous| && i < |previous[k].spec.resources|
    && var s := previous[k];
    && !s.spec.resources[i].isPatch
    && (forall j :: 0 <= j < |outputs| ==> outputs[j].ref != s.spec.resources[i].ref)
    && !((s.spec.resources[i].deleted || s.deleting) && i < |s.status| && s.status[i].reconciled)
  }

  /** The tombstones are those of the outstanding positions, no more and no fewer. */
  lemma TombstonesExactly(outputs: seq<Object>, previous: seq<ResourceSlice>, m: Manifest)
    requires AllAligned(previous)
    ensures m in Tombstones(previous, RefsOf(outputs)) <==>
            exists k: nat, i: nat :: Outstanding(outputs, previous, k, i) && m == previous[k].spec.resources[i].(deleted := true)
  {
    var refs := RefsOf(outputs);
    if m in Tombstones(previous, refs) {
      TombstonesAreSound(previous, refs, m);
      var k, i :| 0 <= k < |previous| && 0 <= i < |previous[k].spec.resources| &&
        NeedsTombstone(previous[k], i, refs) && m == previous[k].spec.resources[i].(deleted := true);
      assert Outstanding(outputs, previous, k, i);
    }
    if k: nat, i: nat :| Outstanding(outputs, previous, k, i) && m == previous[k].spec.resources[i].(deleted := true) {
      TombstoneInAll(previous, refs, k, i);
    }
  }

  /** No output names the resource at this position, which is not a Patch. */
  ghost predicate LeftOut(outputs: seq<Object>, m: Manifest) {
    !m.isPatch && forall j :: 0 <= j < |outputs| ==> outputs[j].ref != m.ref
  }

  /** Once everything that the outputs leave out is a tombstone recorded as reconciled, nothing but the
      outputs is stored: a deletion on record is not asked for again. */
  lemma RecordedDeletionsAreDropped(outputs: seq<Object>, previous: seq<ResourceSlice>)
    requires AllAligned(previous)
    requires forall k, i :: 0 <= k < |previous| && 0 <= i < |previous[k].spec.resources| && LeftOut(outputs, previous[k].spec.resources[i]) ==>
               previous[k].spec.resources[i].deleted && i < |previous[k].status| && previous[k].status[i].reconciled
    ensures Manifests(outputs, previous) == EncodeAll(outputs)
  {
    var t := Tombstones(previous, RefsOf(outputs));
    forall k: nat, i: nat ensures !Outstanding(outputs, previous, k, i) {
      assert k < |previous| && i < |previous[k].spec.resources| && LeftOut(outputs, previous[k].spec.resources[i]) ==>
          previous[k].spec.resources[i].deleted && i < |previous[k].status| && previous[k].status[i].reconciled;
    }
    if t != [] {
      TombstonesExactly(outputs, previous, t[0]);
    }
    assert EncodeAll(outputs) + [] == EncodeAll(outputs);
  }

  /** Every output is stored as it is, in order, before any tombstone. */
  lemma OutputsComeFirst(outputs: seq<Object>, previous: seq<ResourceSlice>, k: nat)
    requires AllAligned(previous) && k < |outputs|
    ensures k < |Manifests(outputs, previous)|
    ensures var m, o := Manifests(outputs, previous)[k], outputs[k];
            m.ref == o.ref && m.isPatch == o.isPatch && m.bytes == o.bytes && !m.deleted && m.decodes
  {
  }

  // ---------- Packing ----------

  function Bytes(ms: seq<Manifest>): nat {
    if ms == [] then 0 else Bytes(ms[..|ms| - 1]) + ms[|ms| - 1].bytes
  }

  predicate NeedsNewSlice(groups: seq<seq<Manifest>>, limit: int) {
    groups == [] || Bytes(groups[|groups| - 1]) >= limit
  }

  /** Adds one manifest to the last slice, or to a new one when the last has reached the limit. */
  function PackOne(groups: seq<seq<Manifest>>, m: Manifest, limit: int): seq<seq<Manifest>> {
    if NeedsNewSlice(groups, limit) then groups + [[m]]
    else groups[..|groups| - 1] + [groups[|groups| - 1] + [m]]
  }

  function Pack(ms: seq<Manifest>, limit: int): seq<seq<Manifest>> {
    if ms == [] then [] else PackOne(Pack(ms[..|ms| - 1], limit), ms[|ms| - 1], limit)
  }

  function Flatten(groups: seq<seq<Manifest>>): seq<Manifest> {
    if groups == [] then [] else Flatten(groups[..|groups| - 1]) + groups[|groups| - 1]
  }

  lemma FlattenSnoc(groups: seq<seq<Manifest>>, g: seq<Manifest>)
    ensures Flatten(groups + [g]) == Flatten(groups) + g
  {
    assert (groups + [g])[..|groups|] == groups;
  }

  lemma {:induction false} FlattenHas(groups: seq<seq<Manifest>>, m: Manifest)
    ensures m in Flatten(groups) <==> exists k :: 0 <= k < |groups| && m in groups[k]
  {
    if groups != [] {
      var n := |groups| - 1;
      FlattenHas(groups[..n], m);
      if k :| 0 <= k < n && m in groups[..n][k] {
        assert m in groups[k];
      }
      if k :| 0 <= k < |groups| && m in groups[k] {
        assert k < n ==> m in groups[..n][k];
      }
    }
  }

  lemma PackOneAppends(groups: seq<seq<Manifest>>, m: Manifest, limit: int)
    ensures Flatten(PackOne(groups, m, limit)) == Flatten(groups) + [m]
  {
    if NeedsNewSlice(groups, limit) {
      FlattenSnoc(groups, [m]);
    } else {
      var full, last := groups[..|groups| - 1], groups[|groups| - 1];
      FlattenSnoc(full, last + [m]);
    }
  }

  /** Concatenating the slices gives the manifests back, in order. */
  lemma {:induction false} PackingLosesNothing(ms: seq<Manifest>, limit: int)
    ensures Flatten(Pack(ms, limit)) == ms
  {
    if ms != [] {
      var n := |ms| - 1;
      PackingLosesNothing(ms[..n], limit);
      PackOneAppends(Pack(ms[..n], limit), ms[n], limit);
    }
  }

  /** Not empty, and under the limit without its last manifest. */
  predicate Fitting(g: seq<Manifest>, limit: int) {
    g != [] && (limit > 0 ==> Bytes(g[..|g| - 1]) < limit)
  }

  predicate WellPacked(groups: seq<seq<Manifest>>, limit: int) {
    && (forall k :: 0 <= k < |groups| ==> Fitting(groups[k], limit))
    && (forall k :: 0 <= k < |groups| - 1 ==> Bytes(groups[k]) >= limit)
  }

  lemma PackOneIsTight(groups: seq<seq<Manifest>>, m: Manifest, limit: int)
    requires WellPacked(groups, limit)
    ensures WellPacked(PackOne(groups, m, limit), limit)
  {
    if NeedsNewSlice(groups, limit) {
      assert [m][..0] == [];
      assert Fitting([m], limit);
    } else {
      var last := groups[|groups| - 1];
      assert (last + [m])[..|last|] == last;
      assert Fitting(last + [m], limit);
    }
  }

  /** No slice is empty, each is under the limit without its last manifest, and each but the last
      reaches it. */
  lemma {:induction false} PackingIsTight(ms: seq<Manifest>, limit: int)
    ensures WellPacked(Pack(ms, limit), limit)
  {
    if ms != [] {
      var n := |ms| - 1;
      PackingIsTight(ms[..n], limit);
      PackOneIsTight(Pack(ms[..n], limit), ms[n], limit);
    }
  }

  lemma {:induction false} BytesOfConcat(a: seq<Manifest>, b: seq<Manifest>)
    ensures Bytes(a + b) == Bytes(a) + Bytes(b)
  {
    if b == [] {
      assert a + b == a;
    } else {
      assert (a + b)[..|a + b| - 1] == a + b[..|b| - 1];
      BytesOfConcat(a, b[..|b| - 1]);
    }
  }

  lemma TimesSucc(n: nat, k: nat)
    ensures (n + 1) * k == n * k + k
  {
  }

  lemma {:induction false} FullGroups(groups: seq<seq<Manifest>>, limit: nat)
    requires forall g <- groups :: Bytes(g) >= limit
    ensures |groups| * limit <= Bytes(Flatten(groups))
  {
    if groups != [] {
      var n := |groups| - 1;
      assert groups[n] in groups;
      FullGroups(groups[..n], limit);
      BytesOfConcat(Flatten(groups[..n]), groups[n]);
      TimesSucc(n, limit);
    }
  }

  /** The number of slices is bounded by the bytes to store. */
  lemma SliceCount(ms: seq<Manifest>, limit: nat)
    ensures Pack(ms, limit) != [] ==> (|Pack(ms, limit)| - 1) * limit <= Bytes(ms)
  {
    var g := Pack(ms, limit);
    if g != [] {
      PackingIsTight(ms, limit);
      PackingLosesNothing(ms, limit);
      var full, last := g[..|g| - 1], g[|g| - 1];
      FullGroups(full, limit);
      BytesOfConcat(Flatten(full), last);
    }
  }

  // ---------- The algorithm ----------

  /** The slices for one synthesis, labelled by what the executor read. */
  function Label(generation: nat, uuid: Uuid, attempt: nat, groups: seq<seq<Manifest>>): (specs: seq<SliceSpec>)
    ensures |specs| == |groups|
    ensures forall k :: 0 <= k < |groups| ==> specs[k] == SliceSpec(generation, uuid, attempt, groups[k])
  {
    seq(|groups|, k requires 0 <= k < |groups| => SliceSpec(generation, uuid, attempt, groups[k]))
  }

  function Sliced(c: Composition, previous: seq<ResourceSlice>, outputs: seq<Object>, limit: int): seq<SliceSpec>
    requires AllAligned(previous)
  {
    Label(c.generation,
          if c.current.Some? then c.current.value.uuid else NO_UUID,
          if c.current.Some? then c.current.value.attempts else 0,
          Pack(Manifests(outputs, previous), limit))
  }

  predicate Decodes(s: ResourceSlice) {
    forall i :: 0 <= i < |s.spec.resources| ==> s.spec.resources[i].decodes
  }

  method BuildTombstones(s: ResourceSlice, refs: set<ResourceRef>) returns (r: Attempt<seq<Manifest>>)
    requires Aligned(s)
    ensures r.Ok? <==> Decodes(s)
    ensures r.Ok? ==> r.value == TombstonesOf(s, |s.spec.resources|, refs)
  {
    var manifests: seq<Manifest> := [];
    for i := 0 to |s.spec.resources|
      invariant forall j :: 0 <= j < i ==> s.spec.resources[j].decodes
      invariant manifests == TombstonesOf(s, i, refs)
    {
      var res := s.spec.resources[i];
      if !res.decodes {
        return Err;
      }
      if res.isPatch {
        continue;
      }
      if res.ref in refs || ((res.deleted || s.deleting) && s.status != [] && s.status[i].reconciled) {
        continue;
      }
      manifests := manifests + [res.(deleted := true)];
    }
    r := Ok(manifests);
  }

  /** The last slice gets one more manifest. */
  function Extended(slices: seq<SliceSpec>, m: Manifest): seq<SliceSpec>
    requires slices != []
  {
    var last := slices[|slices| - 1];
    slices[..|slices| - 1] + [last.(resources := last.resources + [m])]
  }

  /** Labelling commutes with adding a manifest. */
  lemma LabelOne(blank: SliceSpec, groups: seq<seq<Manifest>>, m: Manifest, limit: int)
    requires blank.resources == []
    ensures var before := Label(blank.generation, blank.uuid, blank.attempt, groups);
            var after := Label(blank.generation, blank.uuid, blank.attempt, PackOne(groups, m, limit));
            after == if NeedsNewSlice(groups, limit) then Extended(before + [blank], m) else Extended(before, m)
  {
    if NeedsNewSlice(groups, limit) {
      var before := Label(blank.generation, blank.uuid, blank.attempt, groups);
      assert (before + [blank])[..|before|] == before && blank.resources + [m] == [m];
    }
  }

  /** The bytes in the last slice. */
  function LastBytes(groups: seq<seq<Manifest>>): nat {
    if groups == [] then 0 else Bytes(groups[|groups| - 1])
  }

  lemma PackOneBytes(groups: seq<seq<Manifest>>, m: Manifest, limit: int)
    ensures LastBytes(PackOne(groups, m, limit)) == m.bytes + if NeedsNewSlice(groups, limit) then 0 else LastBytes(groups)
  {
    if NeedsNewSlice(groups, limit) {
      assert [m][..0] == [];
      assert Bytes([m]) == m.bytes;
    } else {
      var last := groups[|groups| - 1];
      assert (last + [m])[..|last|] == last;
    }
  }

  /** One round of the packing loop. */
  method AddManifest(slices: seq<SliceSpec>, sliceBytes: nat, m: Manifest, limit: int, blank: SliceSpec, ghost groups: seq<seq<Manifest>>)
    returns (slices': seq<SliceSpec>, sliceBytes': nat)
    requires blank.resources == []
    requires slices == Label(blank.generation, blank.uuid, blank.attempt, groups) && sliceBytes == LastBytes(groups)
    ensures slices' == Label(blank.generation, blank.uuid, blank.attempt, PackOne(groups, m, limit))
    ensures sliceBytes' == LastBytes(PackOne(groups, m, limit))
  {
    LabelOne(blank, groups, m, limit);
    PackOneBytes(groups, m, limit);
    slices', sliceBytes' := slices, sliceBytes;
    if slices' == [] || sliceBytes' >= limit {
      sliceBytes' := 0;
      slices' := slices' + [blank];
    }
    sliceBytes' := sliceBytes' + m.bytes;
    slices' := Extended(slices', m);
  }

  lemma PackNext(ms: seq<Manifest>, i: nat, limit: int)
    requires i < |ms|
    ensures Pack(ms[..i + 1], limit) == PackOne(Pack(ms[..i], limit), ms[i], limit)
  {
    assert ms[..i + 1][..i] == ms[..i];
  }

  method Partition(c: Composition, manifests: seq<Manifest>, limit: int) returns (slices: seq<SliceSpec>)
    ensures slices == Label(c.generation,
                            if c.current.Some? then c.current.value.uuid else NO_UUID,
                            if c.current.Some? then c.current.value.attempts else 0,
                            Pack(manifests, limit))
  {
    var sliceBytes := 0;
    var blank := SliceSpec(c.generation,
                           if c.current.Some? then c.current.value.uuid else NO_UUID,
                           if c.current.Some? then c.current.value.attempts else 0,
                           []);
    slices := [];
    for i := 0 to |manifests|
      invariant slices == Label(blank.generation, blank.uuid, blank.attempt, Pack(manifests[..i], limit))
      invariant sliceBytes == LastBytes(Pack(manifests[..i], limit))
    {
      PackNext(manifests, i, limit);
      slices, sliceBytes := AddManifest(slices, sliceBytes, manifests[i], limit, blank, Pack(manifests[..i], limit));
    }
    assert manifests[..|manifests|] == manifests;
  }

  /** Fails exactly when an output cannot be encoded or a stored manifest cannot be decoded. */
  method Slice(c: Composition, previous: seq<ResourceSlice>, outputs: seq<Object>, limit: int)
    returns (r: Attempt<seq<SliceSpec>>)
    requires AllAligned(previous)
    ensures r.Ok? <==> (forall i :: 0 <= i < |outputs| ==> outputs[i].encodes) && (forall k :: 0 <= k < |previous| ==> Decodes(previous[k]))
    ensures r.Ok? ==> r.value == Sliced(c, previous, outputs, limit)
  {
    var refs: set<ResourceRef> := {};
    var manifests: seq<Manifest> := [];
    for i := 0 to |outputs|
      invariant forall j :: 0 <= j < i ==> outputs[j].encodes
      invariant refs == RefsOf(outputs[..i])
      invariant manifests == EncodeAll(outputs[..i])
    {
      if !outputs[i].encodes {
        return Err;
      }
      assert outputs[..i + 1] == outputs[..i] + [outputs[i]];
      assert RefsOf(outputs[..i + 1]) == RefsOf(outputs[..i]) + {outputs[i].ref} by {
        assert forall j :: 0 <= j < i ==> outputs[..i + 1][j] == outputs[..i][j];
        assert outputs[..i + 1][i] == outputs[i];
      }
      manifests := manifests + [Encode(outputs[i])];
      refs := refs + {outputs[i].ref};
    }
    assert outputs[..|outputs|] == outputs;
    for k := 0 to |previous|
      invariant forall j :: 0 <= j < k ==> Decodes(previous[j])
      invariant AllAligned(previous[..k]) && manifests == EncodeAll(outputs) + Tombstones(previous[..k], refs)
    {
      assert previous[..k + 1][..k] == previous[..k];
      var t := BuildTombstones(previous[k], refs);
      if t.Err? {
        return Err;
      }
      manifests := manifests + t.value;
    }
    assert previous[..|previous|] == previous;
    var slices := Partition(c, manifests, limit);
    r := Ok(slices);
  }
}
