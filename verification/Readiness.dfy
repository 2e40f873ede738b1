/** The readiness gate: resources of a group are written only when the group before it is ready. */
module Readiness {
  import opened Api
  import opened Groups
  import opened Cache

  /** The recorded states of one synthesis at one time. */
  type Record = map<ManifestRef, ResourceState>

  /** One finished reconciliation that waits in the write buffer. */
  datatype Report = Report(resource: Resource, deleted: bool, ready: Option<Time>)

  /** `history` holds every record so far, because reads may be stale; `written` the resources that
      were ever written to the cluster. */
  datatype State = State(history: seq<Record>, written: set<Resource>, reports: seq<Report>)

  /** `own` and `view` are the versions in which the resource's own state and the states of its
      dependencies are read. */
  datatype Event =
    | Reconcile(resource: Resource, own: nat, view: seq<nat>, writes: bool, modified: bool, deleted: bool, evaluated: Option<Time>)
    | Store(i: nat)

  function StateOf(s: State, version: nat, r: Resource): Option<ResourceState> {
    if version < |s.history| && r.manifest in s.history[version] then Some(s.history[version][r.manifest]) else None
  }

  function Dependencies(byGroup: Tree<seq<Resource>>, r: Resource): seq<Resource> {
    var deps := RangeByGroup(byGroup, r.group, false);
    if deps.Some? then deps.value else []
  }

  /** Deletions and resources that are already on record pass freely. */
  predicate Gated(s: State, r: Resource, own: nat) {
    var state := StateOf(s, own, r);
    (state.None? || !state.value.reconciled) && !r.deleted
  }

  predicate DependenciesReady(s: State, deps: seq<Resource>, view: seq<nat>) {
    && |view| == |deps|
    && forall i :: 0 <= i < |deps| ==> StateOf(s, view[i], deps[i]).Some? && StateOf(s, view[i], deps[i]).value.ready.Some?
  }

  predicate Passes(byGroup: Tree<seq<Resource>>, s: State, r: Resource, own: nat, view: seq<nat>) {
    Gated(s, r, own) ==> DependenciesReady(s, Dependencies(byGroup, r), view)
  }

  /** Readiness sticks to what is on record, else it is what the checks yield. */
  function ReadyTime(state: Option<ResourceState>, evaluated: Option<Time>): Option<Time> {
    if state.Some? && state.value.ready.Some? then state.value.ready else evaluated
  }

  function NextReadiness(list: seq<Resource>, byGroup: Tree<seq<Resource>>, s: State, ev: Event): State {
    match ev
    case Reconcile(r, own, view, writes, modified, deleted, evaluated) =>
      if r in list && own < |s.history| && Passes(byGroup, s, r, own, view) then
        s.(written := if writes then s.written + {r} else s.written,
           reports := if writes && modified then s.reports
                      else s.reports + [Report(r, deleted, ReadyTime(StateOf(s, own, r), evaluated))])
      else s
    case Store(i) =>
      if i < |s.reports| && s.history != [] then
        var p := s.reports[i];
        s.(history := s.history + [s.history[|s.history| - 1][p.resource.manifest := ResourceState(true, p.ready, p.deleted)]])
      else s
  }

  function RunReadiness(list: seq<Resource>, byGroup: Tree<seq<Resource>>, events: seq<Event>): State {
    if events == [] then State([map[]], {}, [])
    else NextReadiness(list, byGroup, RunReadiness(list, byGroup, events[..|events| - 1]), events[|events| - 1])
  }

  /** Who gets past the gate: a deletion, a resource whose read record is reconciled, and one whose
      looked-up group was read as ready throughout. */
  lemma PassesExactly(byGroup: Tree<seq<Resource>>, s: State, r: Resource, own: nat, view: seq<nat>)
    requires |view| == |Dependencies(byGroup, r)|
    ensures Passes(byGroup, s, r, own, view) <==>
            || r.deleted
            || (own < |s.history| && r.manifest in s.history[own] && s.history[own][r.manifest].reconciled)
            || forall i :: 0 <= i < |view| ==>
                 var d := Dependencies(byGroup, r)[i];
                 view[i] < |s.history| && d.manifest in s.history[view[i]] && s.history[view[i]][d.manifest].ready.Some?
  {
    var deps := Dependencies(byGroup, r);
    forall i | 0 <= i < |view|
      ensures StateOf(s, view[i], deps[i]).Some? && StateOf(s, view[i], deps[i]).value.ready.Some? <==>
              view[i] < |s.history| && deps[i].manifest in s.history[view[i]] && s.history[view[i]][deps[i].manifest].ready.Some?
    {
    }
  }

  /** The readiness that is reported: what is on record stays, otherwise it is what the checks yield. */
  lemma ReadinessSticks(s: State, r: Resource, own: nat, evaluated: Option<Time>)
    requires own < |s.history|
    ensures ReadyTime(StateOf(s, own, r), evaluated) ==
            if r.manifest in s.history[own] && s.history[own][r.manifest].ready.Some? then s.history[own][r.manifest].ready else evaluated
  {
  }

  /** A reconciliation of a tombstone is never refused, whatever the states of other resources: it may
      write, and it is reported unless its write changed something. */
  lemma TombstoneIsNeverRefused(list: seq<Resource>, byGroup: Tree<seq<Resource>>, s: State, ev: Event)
    requires ev.Reconcile? && ev.resource in list && ev.resource.deleted && ev.own < |s.history|
    ensures var t := NextReadiness(list, byGroup, s, ev);
            && t.history == s.history
            && t.written == (if ev.writes then s.written + {ev.resource} else s.written)
            && (if ev.writes && ev.modified then t.reports == s.reports
                else |t.reports| == |s.reports| + 1 && t.reports[|s.reports|].resource == ev.resource && t.reports[|s.reports|].deleted == ev.deleted)
  {
  }

  // ---------- Order ----------

  ghost predicate EverRecorded(s: State, r: Resource) {
    exists v :: 0 <= v < |s.history| && r.manifest in s.history[v]
  }

  ghost predicate EverReady(s: State, r: Resource) {
    exists v :: 0 <= v < |s.history| && r.manifest in s.history[v] && s.history[v][r.manifest].ready.Some?
  }

  /** The resource got past the gate. */
  ghost predicate Passed(s: State, r: Resource) {
    r in s.written || (exists p <- s.reports :: p.resource == r) || EverRecorded(s, r)
  }

  /** Every live resource of every lower group had been recorded ready. */
  ghost predicate LowerReady(list: seq<Resource>, s: State, group: int) {
    forall d <- list :: !d.deleted && d.group < group ==> EverReady(s, d)
  }

  /** The index agrees with the list, the manifests differ, groups are not negative, and each group has
      a live resource. */
  ghost predicate Indexed(list: seq<Resource>, ix: Indexes) {
    && Agrees(ix, list)
    && DistinctManifests(list)
    && NonNegative(list)
    && (forall g <- Groups.Keys(ix.byGroup) :: HasLive(list, g))
  }

  /** Moreover no descending lookup takes a wrong shortcut. */
  ghost predicate Setting(list: seq<Resource>, ix: Indexes) {
    Indexed(list, ix) && forall g <- Groups.Keys(ix.byGroup) :: ExactBelow(ix.byGroup, g)
  }

  predicate DistinctManifests(list: seq<Resource>) {
    forall i, j :: 0 <= i < j < |list| ==> list[i].manifest != list[j].manifest
  }

  predicate NonNegative(list: seq<Resource>) {
    forall i :: 0 <= i < |list| ==> list[i].group >= 0
  }

  predicate HasLive(list: seq<Resource>, g: int) {
    exists i :: 0 <= i < |list| && list[i].group == g && !list[i].deleted
  }

  /** What a caller can check: the left child has no right subtree. */
  ghost predicate ExactBelow(byGroup: Tree<seq<Resource>>, g: int) {
    var n := GetNode(byGroup, g);
    n.Node? ==> n.left.Leaf? || n.left.right.Leaf?
  }

  lemma {:induction false} InGroupIs(list: seq<Resource>, g: int, r: Resource)
    ensures r in InGroup(list, g) <==> r in list && r.group == g
  {
    if list != [] {
      InGroupIs(list[..|list| - 1], g, r);
      assert list == list[..|list| - 1] + [list[|list| - 1]];
    }
  }

  lemma GroupIsIndexed(list: seq<Resource>, ix: Indexes, r: Resource)
    requires Agrees(ix, list) && r in list
    ensures r.group in Groups.Keys(ix.byGroup)
  {
    InGroupIs(list, r.group, r);
    assert AgreesOnGroup(ix, list, r.group);
    GetFindsKeys(ix.byGroup, r.group);
  }

  /** There is no lower group, or the dependencies are exactly the resources of the nearest one. */
  lemma DependenciesAreNearest(list: seq<Resource>, ix: Indexes, group: int) returns (g: Option<int>)
    requires Agrees(ix, list) && NonNegative(list) && group in Groups.Keys(ix.byGroup) && ExactBelow(ix.byGroup, group)
    ensures g.None? ==> forall x <- Groups.Keys(ix.byGroup) :: x >= 0 ==> x >= group
    ensures g.Some? ==> Nearest(ix.byGroup, g.value, group, false) && RangeByGroup(ix.byGroup, group, false) == Some(InGroup(list, g.value))
  {
    var t := ix.byGroup;
    RangeIsSound(t, group, false);
    var n := RangeNode(t, group, false);
    if n.Leaf? {
      g := None;
    } else {
      RangeIsNearestExactly(t, group, false);
      GetNodeFinds(t, group);
      assert AgreesOnGroup(ix, list, n.key);
      g := Some(n.key);
    }
  }

  ghost predicate InOrder(list: seq<Resource>, s: State) {
    && s.history != []
    && (forall r <- s.written :: r in list)
    && (forall p <- s.reports :: p.resource in list)
    && (forall r <- list :: !r.deleted && Passed(s, r) ==> LowerReady(list, s, r.group))
  }

  /** If a group is ready, live members included, so are all groups below it. */
  lemma ReadyGroupOrders(list: seq<Resource>, s: State, g: int)
    requires InOrder(list, s) && HasLive(list, g) && forall d <- list :: d.group == g ==> EverReady(s, d)
    ensures LowerReady(list, s, g)
  {
    var i :| 0 <= i < |list| && list[i].group == g && !list[i].deleted;
    assert list[i] in list;
    assert EverReady(s, list[i]) && EverRecorded(s, list[i]);
  }

  lemma DependenciesWereReady(list: seq<Resource>, s: State, g: int, view: seq<nat>, d: Resource)
    requires DependenciesReady(s, InGroup(list, g), view) && d in list && d.group == g
    ensures EverReady(s, d)
  {
    var deps := InGroup(list, g);
    InGroupIs(list, g, d);
    var i :| 0 <= i < |deps| && deps[i] == d;
    assert StateOf(s, view[i], deps[i]).Some?;
  }

  /** Getting past the gate means that all lower groups had been recorded ready. */
  lemma GateOrders(list: seq<Resource>, ix: Indexes, s: State, r: Resource, own: nat, view: seq<nat>)
    requires Setting(list, ix) && InOrder(list, s) && r in list && !r.deleted && own < |s.history|
    requires Passes(ix.byGroup, s, r, own, view)
    ensures LowerReady(list, s, r.group)
  {
    if !Gated(s, r, own) {
      assert EverRecorded(s, r);
    } else {
      GroupIsIndexed(list, ix, r);
      var g := DependenciesAreNearest(list, ix, r.group);
      if g.Some? {
        forall d <- list | d.group == g.value ensures EverReady(s, d) {
          DependenciesWereReady(list, s, g.value, view, d);
        }
        ReadyGroupOrders(list, s, g.value);
      }
      forall d <- list | !d.deleted && d.group < r.group ensures EverReady(s, d) {
        GroupIsIndexed(list, ix, d);
      }
    }
  }

  lemma ReadyStays(s: State, t: State, r: Resource)
    requires s.history <= t.history && EverReady(s, r)
    ensures EverReady(t, r)
  {
    var v :| 0 <= v < |s.history| && r.manifest in s.history[v] && s.history[v][r.manifest].ready.Some?;
    assert t.history[v] == s.history[v];
  }

  /** Storing a report records nobody who had not passed. */
  lemma StorePasses(list: seq<Resource>, byGroup: Tree<seq<Resource>>, s: State, i: nat, r: Resource)
    requires DistinctManifests(list) && InOrder(list, s) && r in list
    requires Passed(NextReadiness(list, byGroup, s, Store(i)), r)
    ensures Passed(s, r)
  {
    var t := NextReadiness(list, byGroup, s, Store(i));
    if t != s && EverRecorded(t, r) {
      var v :| 0 <= v < |t.history| && r.manifest in t.history[v];
      var p := s.reports[i];
      assert p in s.reports;
      if v < |s.history| {
        assert t.history[v] == s.history[v];
      } else if r.manifest != p.resource.manifest {
        assert r.manifest in s.history[|s.history| - 1];
      }
    }
  }

  lemma NextKeepsOrder(list: seq<Resource>, ix: Indexes, s: State, ev: Event)
    requires Setting(list, ix) && InOrder(list, s)
    ensures InOrder(list, NextReadiness(list, ix.byGroup, s, ev))
  {
    var t := NextReadiness(list, ix.byGroup, s, ev);
    forall r <- list | !r.deleted && Passed(t, r) ensures LowerReady(list, t, r.group) {
      if ev.Store? {
        StorePasses(list, ix.byGroup, s, ev.i, r);
      } else if t != s && r == ev.resource {
        GateOrders(list, ix, s, r, ev.own, ev.view);
      } else {
        assert Passed(s, r);
      }
      assert LowerReady(list, s, r.group);
      forall d <- list | !d.deleted && d.group < r.group ensures EverReady(t, d) {
        ReadyStays(s, t, d);
      }
    }
  }

  lemma {:induction false} RunKeepsOrder(list: seq<Resource>, ix: Indexes, events: seq<Event>)
    requires Setting(list, ix)
    ensures InOrder(list, RunReadiness(list, ix.byGroup, events))
  {
    if events != [] {
      RunKeepsOrder(list, ix, events[..|events| - 1]);
      NextKeepsOrder(list, ix, RunReadiness(list, ix.byGroup, events[..|events| - 1]), events[|events| - 1]);
    }
  }

  /** In every run, whatever the order of events and however stale the reads: when a live resource has
      been written, or recorded, every live resource of every lower group had been recorded ready. */
  lemma TransitiveOrder(list: seq<Resource>, ix: Indexes, events: seq<Event>, r: Resource, d: Resource)
    requires Setting(list, ix) && r in list && d in list && !r.deleted && !d.deleted && d.group < r.group
    requires var s := RunReadiness(list, ix.byGroup, events); r in s.written || EverRecorded(s, r)
    ensures EverReady(RunReadiness(list, ix.byGroup, events), d)
  {
    RunKeepsOrder(list, ix, events);
    assert Passed(RunReadiness(list, ix.byGroup, events), r);
  }

  // ---------- Exactly when ----------

  /** The order that the groups ask for, in one run. */
  ghost predicate OrderHolds(list: seq<Resource>, byGroup: Tree<seq<Resource>>, events: seq<Event>) {
    var s := RunReadiness(list, byGroup, events);
    forall r <- list, d <- list :: !r.deleted && !d.deleted && d.group < r.group && (r in s.written || EverRecorded(s, r)) ==> EverReady(s, d)
  }

  ghost predicate ReadyNow(s: State, r: Resource) {
    s.history != [] && StateOf(s, |s.history| - 1, r).Some? && StateOf(s, |s.history| - 1, r).value.ready.Some?
  }

  /** Position `j` comes before position `i` of group `h`, in the order of groups. */
  predicate Before(list: seq<Resource>, j: nat, h: int, i: nat)
    requires j < |list|
  {
    list[j].group < h || (list[j].group == h && j < i)
  }

  /** Exactly the resources before position `i` of group `h` have been recorded, and they are ready. */
  ghost predicate Climbed(list: seq<Resource>, s: State, h: int, i: nat) {
    && s.history != []
    && forall j: nat :: j < |list| ==> if Before(list, j, h, i) then ReadyNow(s, list[j]) else !EverRecorded(s, list[j])
  }

  function Latest(s: State, n: nat): (view: seq<nat>)
    requires s.history != []
    ensures |view| == n && forall i :: 0 <= i < n ==> view[i] == |s.history| - 1
  {
    seq(n, _ => |s.history| - 1)
  }

  /** The dependencies lie in a lower group. */
  lemma DependenciesAreLower(list: seq<Resource>, ix: Indexes, r: Resource, d: Resource)
    requires Agrees(ix, list) && r in list && d in Dependencies(ix.byGroup, r)
    ensures d in list && d.group < r.group
    ensures RangeNode(ix.byGroup, r.group, false).Node? && d.group == RangeNode(ix.byGroup, r.group, false).key
  {
    GroupIsIndexed(list, ix, r);
    RangeIsSound(ix.byGroup, r.group, false);
    var g := RangeNode(ix.byGroup, r.group, false).key;
    assert AgreesOnGroup(ix, list, g);
    InGroupIs(list, g, d);
  }

  /** A resource passes when the group that the lookup finds is ready. */
  lemma ReadyPasses(list: seq<Resource>, ix: Indexes, s: State, r: Resource, h: int, i: nat)
    requires Climbed(list, s, h, i) && forall d <- Dependencies(ix.byGroup, r) :: d in list && d.group < h
    ensures Passes(ix.byGroup, s, r, |s.history| - 1, Latest(s, |Dependencies(ix.byGroup, r)|))
  {
    var deps := Dependencies(ix.byGroup, r);
    forall k | 0 <= k < |deps| ensures ReadyNow(s, deps[k]) {
      assert deps[k] in deps;
      var j: nat :| j < |list| && list[j] == deps[k];
      assert Before(list, j, h, i);
    }
  }

  function ReconcileNow(ix: Indexes, s: State, r: Resource, writes: bool): Event
    requires s.history != []
  {
    Reconcile(r, |s.history| - 1, Latest(s, |Dependencies(ix.byGroup, r)|), writes, writes, false, Some(0))
  }

  /** Recording one more resource. */
  lemma RecordStep(list: seq<Resource>, s: State, t: State, h: int, i: nat, state: ResourceState)
    requires DistinctManifests(list) && Climbed(list, s, h, i) && i < |list| && list[i].group == h && state.ready.Some?
    requires t.history == s.history + [s.history[|s.history| - 1][list[i].manifest := state]]
    ensures Climbed(list, t, h, i + 1)
  {
    var n := |s.history|;
    forall j: nat | j < |list| ensures if Before(list, j, h, i + 1) then ReadyNow(t, list[j]) else !EverRecorded(t, list[j]) {
      if j != i {
        assert list[j].manifest != list[i].manifest;
        assert Before(list, j, h, i + 1) <==> Before(list, j, h, i);
        if !Before(list, j, h, i) {
          forall v | 0 <= v < |t.history| ensures list[j].manifest !in t.history[v] {
            assert list[j].manifest !in s.history[if v < n then v else n - 1];
          }
        }
      }
    }
  }

  lemma RunSnoc(list: seq<Resource>, byGroup: Tree<seq<Resource>>, events: seq<Event>, ev: Event)
    ensures RunReadiness(list, byGroup, events + [ev]) == NextReadiness(list, byGroup, RunReadiness(list, byGroup, events), ev)
  {
    assert (events + [ev])[..|events|] == events;
  }

  /** The report of a resource that passes, and its storage. */
  lemma ReportThenStore(list: seq<Resource>, ix: Indexes, s: State, r: Resource) returns (state: ResourceState)
    requires r in list && s.history != [] && Passes(ix.byGroup, s, r, |s.history| - 1, Latest(s, |Dependencies(ix.byGroup, r)|))
    ensures state.ready.Some?
    ensures var t := NextReadiness(list, ix.byGroup, NextReadiness(list, ix.byGroup, s, ReconcileNow(ix, s, r, false)), Store(|s.reports|));
            t.history == s.history + [s.history[|s.history| - 1][r.manifest := state]]
  {
    state := ResourceState(true, ReadyTime(StateOf(s, |s.history| - 1, r), Some(0)), false);
  }

  /** The gate lets the next resource pass. */
  lemma ClimbOne(list: seq<Resource>, ix: Indexes, events: seq<Event>, h: int, i: nat) returns (more: seq<Event>)
    requires Indexed(list, ix) && i < |list| && list[i].group == h && Climbed(list, RunReadiness(list, ix.byGroup, events), h, i)
    ensures Climbed(list, RunReadiness(list, ix.byGroup, more), h, i + 1)
  {
    var s, r := RunReadiness(list, ix.byGroup, events), list[i];
    forall d <- Dependencies(ix.byGroup, r) ensures d in list && d.group < h { DependenciesAreLower(list, ix, r, d); }
    ReadyPasses(list, ix, s, r, h, i);
    var e1, e2 := ReconcileNow(ix, s, r, false), Store(|s.reports|);
    RunSnoc(list, ix.byGroup, events, e1);
    RunSnoc(list, ix.byGroup, events + [e1], e2);
    more := events + [e1] + [e2];
    var state := ReportThenStore(list, ix, s, r);
    RecordStep(list, s, RunReadiness(list, ix.byGroup, more), h, i, state);
  }

  lemma {:induction false} ClimbGroup(list: seq<Resource>, ix: Indexes, events: seq<Event>, h: int, i: nat) returns (more: seq<Event>)
    requires Indexed(list, ix) && i <= |list| && Climbed(list, RunReadiness(list, ix.byGroup, events), h, i)
    ensures Climbed(list, RunReadiness(list, ix.byGroup, more), h + 1, 0)
    decreases |list| - i
  {
    if i == |list| {
      assert forall j: nat :: j < |list| ==> (Before(list, j, h, i) <==> Before(list, j, h + 1, 0));
      more := events;
    } else if list[i].group == h {
      var next := ClimbOne(list, ix, events, h, i);
      more := ClimbGroup(list, ix, next, h, i + 1);
    } else {
      assert forall j: nat :: j < |list| ==> (Before(list, j, h, i) <==> Before(list, j, h, i + 1));
      more := ClimbGroup(list, ix, events, h, i + 1);
    }
  }

  /** A run that records every resource below group `h` as ready, and no other. */
  lemma {:induction false} Climb(list: seq<Resource>, ix: Indexes, h: nat) returns (events: seq<Event>)
    requires Indexed(list, ix)
    ensures Climbed(list, RunReadiness(list, ix.byGroup, events), h, 0)
  {
    if h == 0 {
      events := [];
    } else {
      var before := Climb(list, ix, h - 1);
      events := ClimbGroup(list, ix, before, h - 1, 0);
    }
  }

  /** A lookup that is not exact skips a group. */
  lemma InexactSkips(list: seq<Resource>, ix: Indexes, g: int) returns (skipped: int)
    requires Indexed(list, ix) && g in Groups.Keys(ix.byGroup) && !ExactBelow(ix.byGroup, g)
    ensures var n := RangeNode(ix.byGroup, g, false);
            n.Node? && 0 <= n.key < skipped < g && skipped in Groups.Keys(ix.byGroup)
  {
    var t := ix.byGroup;
    GetNodeFinds(t, g);
    RangeIsSound(t, g, false);
    var child := GetNode(t, g).left;
    ChildIsInTree(t, g, child.key);
    GroupIsNatural(list, ix, child.key);
    assert child.key in Groups.Keys(child);
    RangeIsNearestExactly(t, g, false);
    skipped :| skipped in Groups.Keys(t) && Beyond(skipped, g, false) && skipped != child.key && !Beyond(skipped, child.key, false);
  }

  lemma GroupIsNatural(list: seq<Resource>, ix: Indexes, g: int)
    requires Agrees(ix, list) && NonNegative(list) && g in Groups.Keys(ix.byGroup)
    ensures g >= 0
  {
    GetFindsKeys(ix.byGroup, g);
    assert AgreesOnGroup(ix, list, g);
    var r := InGroup(list, g)[0];
    InGroupIs(list, g, r);
  }

  /** Writing a resource that passes, although a lower one has not been recorded. */
  lemma WritingBreaksOrder(list: seq<Resource>, ix: Indexes, events: seq<Event>, r: Resource, d: Resource) returns (more: seq<Event>)
    requires r in list && d in list && !r.deleted && !d.deleted && d.group < r.group
    requires var s := RunReadiness(list, ix.byGroup, events);
             && s.history != [] && !EverRecorded(s, d)
             && Passes(ix.byGroup, s, r, |s.history| - 1, Latest(s, |Dependencies(ix.byGroup, r)|))
    ensures !OrderHolds(list, ix.byGroup, more)
  {
    var s := RunReadiness(list, ix.byGroup, events);
    var ev := ReconcileNow(ix, s, r, true);
    more := events + [ev];
    RunSnoc(list, ix.byGroup, events, ev);
    var t := RunReadiness(list, ix.byGroup, more);
    assert r in t.written && t.history == s.history;
    assert !EverReady(t, d);
  }

  /** Then a resource is written before the skipped group is ready. */
  lemma InexactBreaksOrder(list: seq<Resource>, ix: Indexes, g: int) returns (events: seq<Event>)
    requires Indexed(list, ix) && g in Groups.Keys(ix.byGroup) && !ExactBelow(ix.byGroup, g)
    ensures !OrderHolds(list, ix.byGroup, events)
  {
    var skipped := InexactSkips(list, ix, g);
    var found := RangeNode(ix.byGroup, g, false).key;
    var r := LiveIn(list, ix, g);
    var d := LiveIn(list, ix, skipped);
    var before := Climb(list, ix, found + 1);
    var s := RunReadiness(list, ix.byGroup, before);
    forall e <- Dependencies(ix.byGroup, r) ensures e in list && e.group < found + 1 { DependenciesAreLower(list, ix, r, e); }
    ReadyPasses(list, ix, s, r, found + 1, 0);
    var j: nat :| j < |list| && list[j] == d;
    assert !Before(list, j, found + 1, 0);
    events := WritingBreaksOrder(list, ix, before, r, d);
  }

  lemma LiveIn(list: seq<Resource>, ix: Indexes, g: int) returns (r: Resource)
    requires Indexed(list, ix) && g in Groups.Keys(ix.byGroup)
    ensures r in list && r.group == g && !r.deleted
  {
    assert HasLive(list, g);
    var i :| 0 <= i < |list| && list[i].group == g && !list[i].deleted;
    r := list[i];
  }

  /** The order holds in every run if and only if every descending lookup is exact. */
  lemma {:induction false} OrderHoldsExactly(list: seq<Resource>, ix: Indexes)
    requires Indexed(list, ix)
    ensures (forall events :: OrderHolds(list, ix.byGroup, events)) <==> (forall g <- Groups.Keys(ix.byGroup) :: ExactBelow(ix.byGroup, g))
  {
    if g :| g in Groups.Keys(ix.byGroup) && !ExactBelow(ix.byGroup, g) {
      var events := InexactBreaksOrder(list, ix, g);
    } else {
      forall events ensures OrderHolds(list, ix.byGroup, events) {
        var s := RunReadiness(list, ix.byGroup, events);
        forall r <- list, d <- list | !r.deleted && !d.deleted && d.group < r.group && (r in s.written || EverRecorded(s, r)) ensures EverReady(s, d) {
          TransitiveOrder(list, ix, events, r, d);
        }
      }
    }
  }
}
