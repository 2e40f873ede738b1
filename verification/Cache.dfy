/** The reconstitution cache: indexes over the resources of each synthesis. */
module Cache {
  import opened Api
  import opened Groups

  datatype GroupKind = GroupKind(group: string, kind: string)

  /** A resource of one manifest; `defines` is the kind that a CRD defines. */
  datatype Resource = Resource(
    ref: ResourceRef, manifest: ManifestRef, groupKind: GroupKind, group: int, deleted: bool, defines: Option<GroupKind>)

  /** A slice as it is read back: `None` stands for a manifest that is not valid. */
  datatype Item = Item(deleting: bool, resources: seq<Option<Resource>>)

  // ---------- The plain list and what the indexes mean ----------

  function InGroup(list: seq<Resource>, group: int): seq<Resource> {
    if list == [] then []
    else
      var last := list[|list| - 1];
      InGroup(list[..|list| - 1], group) + if last.group == group then [last] else []
  }

  function OfKind(list: seq<Resource>, gk: GroupKind): seq<Resource> {
    if list == [] then []
    else
      var last := list[|list| - 1];
      OfKind(list[..|list| - 1], gk) + if last.groupKind == gk then [last] else []
  }

  function LastWithRef(list: seq<Resource>, ref: ResourceRef): Option<Resource> {
    if list == [] then None
    else if list[|list| - 1].ref == ref then Some(list[|list| - 1])
    else LastWithRef(list[..|list| - 1], ref)
  }

  function LastDefining(list: seq<Resource>, gk: GroupKind): Option<Resource> {
    if list == [] then None
    else if list[|list| - 1].defines == Some(gk) then Some(list[|list| - 1])
    else LastDefining(list[..|list| - 1], gk)
  }

  datatype Indexes = Indexes(
    byRef: map<ResourceRef, Resource>,
    byGroup: Tree<seq<Resource>>,
    byKind: map<GroupKind, seq<Resource>>,
    crds: map<GroupKind, Resource>)

  function OrEmpty(o: Option<seq<Resource>>): seq<Resource> {
    if o.Some? then o.value else []
  }

  function Lookup<K(==), V>(m: map<K, V>, k: K): Option<V> {
    if k in m then Some(m[k]) else None
  }

  /** The indexes are views of the list: filters in list order, and the last match. */
  ghost predicate Agrees(ix: Indexes, list: seq<Resource>) {
    && Search(ix.byGroup)
    && (forall g :: AgreesOnGroup(ix, list, g))
    && (forall gk :: AgreesOnKind(ix, list, gk))
    && (forall ref :: Lookup(ix.byRef, ref) == LastWithRef(list, ref))
  }

  ghost predicate AgreesOnGroup(ix: Indexes, list: seq<Resource>, g: int) {
    OrEmpty(Get(ix.byGroup, g)) == InGroup(list, g) && (Get(ix.byGroup, g).Some? <==> InGroup(list, g) != [])
  }

  ghost predicate AgreesOnKind(ix: Indexes, list: seq<Resource>, gk: GroupKind) {
    && OrEmpty(Lookup(ix.byKind, gk)) == OfKind(list, gk)
    && (gk in ix.byKind <==> OfKind(list, gk) != [])
    && Lookup(ix.crds, gk) == LastDefining(list, gk)
  }

  const NO_INDEXES := Indexes(map[], Leaf, map[], map[])

  function AddResource(ix: Indexes, r: Resource): Indexes {
    Indexes(
      ix.byRef[r.ref := r],
      Put(ix.byGroup, r.group, OrEmpty(Get(ix.byGroup, r.group)) + [r]),
      ix.byKind[r.groupKind := OrEmpty(Lookup(ix.byKind, r.groupKind)) + [r]],
      if r.defines.Some? then ix.crds[r.defines.value := r] else ix.crds)
  }

  lemma AddKeepsAgreement(ix: Indexes, list: seq<Resource>, r: Resource)
    requires Agrees(ix, list)
    ensures Agrees(AddResource(ix, r), list + [r])
  {
    var ix', list' := AddResource(ix, r), list + [r];
    assert list'[..|list|] == list;
    PutIsUpdate(ix.byGroup, r.group, OrEmpty(Get(ix.byGroup, r.group)) + [r], r.group);
    forall g ensures AgreesOnGroup(ix', list', g) {
      PutIsUpdate(ix.byGroup, r.group, OrEmpty(Get(ix.byGroup, r.group)) + [r], g);
      assert AgreesOnGroup(ix, list, g);
      assert AgreesOnGroup(ix, list, r.group);
    }
    forall gk ensures AgreesOnKind(ix', list', gk) {
      assert AgreesOnKind(ix, list, gk);
    }
    forall ref ensures Lookup(ix'.byRef, ref) == LastWithRef(list', ref) {
      assert Lookup(ix.byRef, ref) == LastWithRef(list, ref);
    }
  }

  /** All resources, in order; meant for items whose manifests are all valid. */
  function ValidPrefix(resources: seq<Option<Resource>>): seq<Resource> {
    if resources == [] then []
    else ValidPrefix(resources[..|resources| - 1]) + if resources[|resources| - 1].Some? then [resources[|resources| - 1].value] else []
  }

  function ResourcesOf(items: seq<Item>): seq<Resource> {
    if items == [] then [] else ResourcesOf(items[..|items| - 1]) + ValidPrefix(items[|items| - 1].resources)
  }

  /** A deleting composition's slices must be deleting as well, or the reader is stale. */
  predicate Usable(deleting: bool, item: Item) {
    (deleting ==> item.deleting) && forall i :: 0 <= i < |item.resources| ==> item.resources[i].Some?
  }

  predicate AllUsable(deleting: bool, items: seq<Item>) {
    forall k :: 0 <= k < |items| ==> Usable(deleting, items[k])
  }

  lemma AddNext(ix: Indexes, list: seq<Resource>, resources: seq<Option<Resource>>, i: nat)
    requires i < |resources| && resources[i].Some? && Agrees(ix, list + ValidPrefix(resources[..i]))
    ensures Agrees(AddResource(ix, resources[i].value), list + ValidPrefix(resources[..i + 1]))
  {
    var before, r := ValidPrefix(resources[..i]), resources[i].value;
    assert resources[..i + 1][..i] == resources[..i];
    assert list + before + [r] == list + (before + [r]);
    AddKeepsAgreement(ix, list + before, r);
  }

  /** One slice of the nested loop. */
  method AddItem(ix0: Indexes, item: Item, ghost list: seq<Resource>) returns (ok: bool, ix: Indexes)
    requires Agrees(ix0, list)
    ensures ok <==> forall i :: 0 <= i < |item.resources| ==> item.resources[i].Some?
    ensures ok ==> Agrees(ix, list + ValidPrefix(item.resources))
  {
    ix := ix0;
    assert list + [] == list;
    for i := 0 to |item.resources|
      invariant forall j :: 0 <= j < i ==> item.resources[j].Some?
      invariant Agrees(ix, list + ValidPrefix(item.resources[..i]))
    {
      if item.resources[i].None? {
        return false, ix;
      }
      AddNext(ix, list, item.resources, i);
      ix := AddResource(ix, item.resources[i].value);
    }
    assert item.resources[..|item.resources|] == item.resources;
    ok := true;
  }

  /** Builds all indexes, or none: it fails exactly on a stale slice or an invalid manifest. */
  method BuildResources(deleting: bool, items: seq<Item>) returns (ok: bool, ix: Indexes)
    ensures ok <==> AllUsable(deleting, items)
    ensures ok ==> Agrees(ix, ResourcesOf(items))
  {
    ix := NO_INDEXES;
    for k := 0 to |items|
      invariant AllUsable(deleting, items[..k])
      invariant Agrees(ix, ResourcesOf(items[..k]))
    {
      assert items[..k + 1][..k] == items[..k];
      if !items[k].deleting && deleting {
        return false, ix;
      }
      var added, ix' := AddItem(ix, items[k], ResourcesOf(items[..k]));
      if !added {
        return false, ix;
      }
      ix := ix';
    }
    assert items[..|items|] == items;
    ok := true;
  }

  // ---------- The cache over time ----------

  datatype CompositionKey = CompositionKey(name: string, namespace: string)

  datatype SynthesisRef = SynthesisRef(comp: CompositionKey, uuid: Uuid)

  datatype Content = Content(resources: map<SynthesisRef, Indexes>, tracked: map<CompositionKey, seq<Uuid>>)

  function TrackedBy(c: Content, comp: CompositionKey): seq<Uuid> {
    if comp in c.tracked then c.tracked[comp] else []
  }

  function Filled(c: Content, comp: CompositionKey, uuid: Uuid, ix: Indexes): Content {
    Content(c.resources[SynthesisRef(comp, uuid) := ix], c.tracked[comp := TrackedBy(c, comp) + [uuid]])
  }

  /** The UUIDs of Current and Previous; both absent when the composition is gone. */
  datatype Keep = Keep(current: Option<Uuid>, previous: Option<Uuid>)

  predicate Keeps(k: Keep, uuid: Uuid) {
    k.current == Some(uuid) || k.previous == Some(uuid)
  }

  function Remaining(uuids: seq<Uuid>, k: Keep): seq<Uuid> {
    if uuids == [] then []
    else
      var last := uuids[|uuids| - 1];
      Remaining(uuids[..|uuids| - 1], k) + if Keeps(k, last) then [last] else []
  }

  function Purged(c: Content, comp: CompositionKey, k: Keep): Content {
    Content(
      map r | r in c.resources && !(r.comp == comp && r.uuid in TrackedBy(c, comp) && !Keeps(k, r.uuid)) :: c.resources[r],
      c.tracked[comp := Remaining(TrackedBy(c, comp), k)])
  }

  /** One successful fill or one purge. */
  datatype Op = Fill(comp: CompositionKey, uuid: Uuid, indexes: Indexes) | Purge(comp: CompositionKey, keep: Keep)

  function NextContent(c: Content, op: Op): Content {
    match op
    case Fill(comp, uuid, ix) => Filled(c, comp, uuid, ix)
    case Purge(comp, keep) => Purged(c, comp, keep)
  }

  function RunCache(ops: seq<Op>): Content {
    if ops == [] then Content(map[], map[]) else NextContent(RunCache(ops[..|ops| - 1]), ops[|ops| - 1])
  }

  lemma {:induction false} RemainingKeeps(uuids: seq<Uuid>, k: Keep, u: Uuid)
    ensures u in Remaining(uuids, k) <==> u in uuids && Keeps(k, u)
  {
    if uuids != [] {
      RemainingKeeps(uuids[..|uuids| - 1], k, u);
      assert uuids == uuids[..|uuids| - 1] + [uuids[|uuids| - 1]];
    }
  }

  ghost predicate Consistent(c: Content) {
    forall r: SynthesisRef :: r in c.resources <==> r.uuid in TrackedBy(c, r.comp)
  }

  lemma NextKeepsConsistent(c: Content, op: Op)
    requires Consistent(c)
    ensures Consistent(NextContent(c, op))
  {
    var d := NextContent(c, op);
    forall r: SynthesisRef ensures r in d.resources <==> r.uuid in TrackedBy(d, r.comp) {
      assert r in c.resources <==> r.uuid in TrackedBy(c, r.comp);
      if op.Purge? && r.comp == op.comp {
        RemainingKeeps(TrackedBy(c, r.comp), op.keep, r.uuid);
      }
    }
  }

  class ReconstitutionCache {
    var resources: map<SynthesisRef, Indexes>
    var tracked: map<CompositionKey, seq<Uuid>>

    function Value(): Content
      reads this
    {
      Content(resources, tracked)
    }

    /** The cached syntheses of each composition are exactly its tracked UUIDs. */
    ghost predicate Valid()
      reads this
    {
      Consistent(Value())
    }

    constructor ()
      ensures Valid() && Value() == Content(map[], map[])
    {
      resources, tracked := map[], map[];
    }

    /** Tells from the index whether the composition's bookkeeping lists the synthesis, so that it is not
        filled twice. */
    method HasSynthesis(comp: CompositionKey, uuid: Uuid) returns (r: bool)
      requires Valid()
      ensures r <==> uuid in TrackedBy(Value(), comp)
    {
      r := SynthesisRef(comp, uuid) in resources;
    }

    /** Stores the indexes of one synthesis, or changes nothing. */
    method Fill(comp: CompositionKey, deleting: bool, uuid: Uuid, items: seq<Item>) returns (ok: bool)
      requires Valid()
      modifies this
      ensures Valid()
      ensures ok <==> AllUsable(deleting, items)
      ensures !ok ==> Value() == old(Value())
      ensures ok ==> exists ix :: Agrees(ix, ResourcesOf(items)) && Value() == Filled(old(Value()), comp, uuid, ix)
    {
      var built, ix := BuildResources(deleting, items);
      if !built {
        return false;
      }
      resources := resources[SynthesisRef(comp, uuid) := ix];
      tracked := tracked[comp := (if comp in tracked then tracked[comp] else []) + [uuid]];
      assert Value() == Filled(old(Value()), comp, uuid, ix);
      NextKeepsConsistent(old(Value()), Op.Fill(comp, uuid, ix));
      ok := true;
    }

    /** Drops what the composition no longer refers to. */
    method Purge(comp: CompositionKey, keep: Keep)
      requires Valid()
      modifies this
      ensures Valid()
      ensures Value() == Purged(old(Value()), comp, keep)
    {
      var uuids := if comp in tracked then tracked[comp] else [];
      var remaining: seq<Uuid> := [];
      for i := 0 to |uuids|
        invariant tracked == old(tracked)
        invariant remaining == Remaining(uuids[..i], keep)
        invariant resources == map r | r in old(resources) && !(r.comp == comp && r.uuid in uuids[..i] && !Keeps(keep, r.uuid)) :: old(resources)[r]
      {
        assert uuids[..i + 1][..i] == uuids[..i];
        assert forall u :: u in uuids[..i + 1] <==> u in uuids[..i] || u == uuids[i];
        if Keeps(keep, uuids[i]) {
          remaining := remaining + [uuids[i]];
          continue;
        }
        resources := resources - {SynthesisRef(comp, uuids[i])};
      }
      assert uuids[..|uuids|] == uuids;
      tracked := tracked[comp := remaining];
      assert Value() == Purged(old(Value()), comp, keep);
      NextKeepsConsistent(old(Value()), Op.Purge(comp, keep));
    }
  }

  /** Over any run of fills and purges the cached syntheses of a composition are exactly its tracked
      UUIDs. */
  lemma {:induction false} CachedAreTracked(ops: seq<Op>)
    ensures Consistent(RunCache(ops))
  {
    if ops != [] {
      CachedAreTracked(ops[..|ops| - 1]);
      NextKeepsConsistent(RunCache(ops[..|ops| - 1]), ops[|ops| - 1]);
    }
  }

  /** A purge leaves of a composition exactly the cached syntheses that are Current or Previous, and
      does not touch any other composition. */
  lemma PurgeIsExact(ops: seq<Op>, comp: CompositionKey, keep: Keep, r: SynthesisRef)
    ensures var c, d := RunCache(ops), RunCache(ops + [Purge(comp, keep)]);
            && (r.comp == comp ==> (r in d.resources <==> r in c.resources && (keep.current == Some(r.uuid) || keep.previous == Some(r.uuid))))
            && (r.comp != comp ==> (r in d.resources <==> r in c.resources) && TrackedBy(d, r.comp) == TrackedBy(c, r.comp))
            && (r in d.resources ==> d.resources[r] == c.resources[r])
  {
    CachedAreTracked(ops);
    assert (ops + [Purge(comp, keep)])[..|ops|] == ops;
    assert r in RunCache(ops).resources <==> r.uuid in TrackedBy(RunCache(ops), r.comp);
  }

  /** Slices can be used if and only if all manifests are valid and a deleting composition has no slice that
      is not being deleted. */
  lemma UsableExactly(deleting: bool, items: seq<Item>)
    ensures AllUsable(deleting, items) <==>
            && !(deleting && exists k :: 0 <= k < |items| && !items[k].deleting)
            && forall k, i :: 0 <= k < |items| && 0 <= i < |items[k].resources| ==> items[k].resources[i].Some?
  {
  }
}
