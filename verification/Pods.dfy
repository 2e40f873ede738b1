/** Synthesizer pods of one composition and the single worker that creates and deletes them. */
module Pods {
  import opened Api
  import opened Sets

  type PodId = nat

  datatype Pod = Pod(uuid: Uuid, terminating: bool, succeeded: bool, seenByKubelet: bool, created: Time, scheduled: Option<Time>)

  datatype Listed = Listed(id: PodId, pod: Pod)

  function Terminating(pods: seq<Listed>): nat {
    if pods == [] then 0
    else Terminating(pods[..|pods| - 1]) + if pods[|pods| - 1].pod.terminating then 1 else 0
  }

  predicate PodIsCurrent(c: Composition, p: Pod) {
    c.current.Some? && c.current.value.uuid == p.uuid
  }

  /** Why a pod that is not terminating should go. `timeout` is the synthesizer's pod timeout, absent
      when there is no synthesizer. A synthesizer without a timeout is not modelled: the source reads the
      timeout unconditionally. */
  predicate DeleteReason(c: Composition, timeout: Option<nat>, p: Pod, oneDeleting: bool, now: Time, creationTtl: nat) {
    || timeout.None?
    || c.deleting
    || p.succeeded
    || !PodIsCurrent(c, p)
    || c.current.value.synthesized.Some?
    || (!oneDeleting && !p.seenByKubelet && c.current.value.attempts <= 3 && p.scheduled.Some? && now > p.scheduled.value + creationTtl)
    || now > p.created + timeout.value
  }

  /** A new pod may be created: nothing runs and at most one pod is terminating. */
  predicate Vacant(pods: seq<Listed>) {
    |pods| <= 1 && forall i :: 0 <= i < |pods| ==> pods[i].pod.terminating
  }

  predicate FirstRunning(pods: seq<Listed>, i: nat) {
    i < |pods| && !pods[i].pod.terminating && forall j :: 0 <= j < i ==> pods[j].pod.terminating
  }

  lemma {:induction false} TerminatingBound(pods: seq<Listed>)
    ensures Terminating(pods) <= |pods|
    ensures Terminating(pods) == |pods| <==> forall i :: 0 <= i < |pods| ==> pods[i].pod.terminating
  {
    if pods != [] {
      var n := |pods| - 1;
      TerminatingBound(pods[..n]);
      assert forall i :: 0 <= i < n ==> pods[..n][i] == pods[i];
    }
  }

  lemma {:induction false} TerminatingPrefix(pods: seq<Listed>, n: nat)
    requires n <= |pods|
    ensures Terminating(pods[..n]) <= Terminating(pods)
  {
    if n < |pods| {
      TerminatingPrefix(pods[..|pods| - 1], n);
      assert pods[..|pods| - 1][..n] == pods[..n];
    } else {
      assert pods[..n] == pods;
    }
  }

  /** The controller's choice: which pod to delete, and whether one is in the way of a new one. */
  method ShouldDeletePod(c: Composition, timeout: Option<nat>, pods: seq<Listed>, now: Time, creationTtl: nat)
    returns (toDelete: Option<nat>, exist: bool)
    ensures !exist <==> Vacant(pods)
    ensures toDelete.Some? <==> Terminating(pods) <= 1 && exists i: nat :: FirstRunning(pods, i) && DeleteReason(c, timeout, pods[i].pod, Terminating(pods) == 1, now, creationTtl)
    ensures toDelete.Some? ==> FirstRunning(pods, toDelete.value)
  {
    if |pods| == 0 {
      return None, false;
    }
    TerminatingBound(pods);
    var oneDeleting := false;
    for i := 0 to |pods|
      invariant Terminating(pods[..i]) == if oneDeleting then 1 else 0
    {
      assert pods[..i + 1][..i] == pods[..i];
      if pods[i].pod.terminating {
        if oneDeleting {
          TerminatingPrefix(pods, i + 1);
          return None, true;
        }
        oneDeleting := true;
      }
    }
    assert pods[..|pods|] == pods;
    for i := 0 to |pods|
      invariant forall j :: 0 <= j < i ==> pods[j].pod.terminating
    {
      var p := pods[i].pod;
      if p.terminating {
        continue;
      }
      assert FirstRunning(pods, i);
      assert forall k: nat :: FirstRunning(pods, k) ==> k == i;
      if DeleteReason(c, timeout, p, oneDeleting, now, creationTtl) {
        return Some(i), true;
      }
      return None, true;
    }
    toDelete, exist := None, false;
  }

  // ---------- The worker ----------

  /** Where the worker stands between its steps. */
  datatype Phase = Resting | Deleting(id: PodId) | Proceeding | Creating(uuid: Uuid)

  datatype State = State(pods: map<PodId, Pod>, next: PodId, phase: Phase)

  datatype Event =
    | ListPods(view: seq<Listed>)              // the cached list shows a vacancy
    | ChooseVictim(view: seq<Listed>, i: nat)  // the cached list shows a pod to delete
    | SendDelete
    | CheckUncached(uuid: Uuid)                // no running pod carries this UUID, according to the server
    | SendCreate(now: Time)
    | Progress(id: PodId, pod: Pod)            // the cluster: phases, schedules, evictions
    | Vanish(id: PodId)

  predicate NoRunner(s: State, uuid: Uuid) {
    forall id <- s.pods :: s.pods[id].uuid == uuid ==> s.pods[id].terminating
  }

  function NextPods(s: State, ev: Event): State {
    match ev
    case ListPods(view) => if s.phase.Resting? && Vacant(view) then s.(phase := Proceeding) else s
    case ChooseVictim(view, i) => if s.phase.Resting? && i < |view| then s.(phase := Deleting(view[i].id)) else s
    case SendDelete =>
      if !s.phase.Deleting? then s
      else if s.phase.id in s.pods then s.(pods := s.pods[s.phase.id := s.pods[s.phase.id].(terminating := true)], phase := Resting)
      else s.(phase := Resting)
    case CheckUncached(uuid) =>
      if !s.phase.Proceeding? then s else s.(phase := if NoRunner(s, uuid) then Creating(uuid) else Resting)
    case SendCreate(now) =>
      if !s.phase.Creating? then s
      else State(s.pods[s.next := Pod(s.phase.uuid, false, false, false, now, None)], s.next + 1, Resting)
    case Progress(id, pod) =>
      if id in s.pods && pod.uuid == s.pods[id].uuid && (s.pods[id].terminating ==> pod.terminating)
      then s.(pods := s.pods[id := pod]) else s
    case Vanish(id) => s.(pods := s.pods - {id})
  }

  function RunPods(events: seq<Event>): State {
    if events == [] then State(map[], 0, Resting) else NextPods(RunPods(events[..|events| - 1]), events[|events| - 1])
  }

  function Running(s: State): set<PodId> {
    set id | id in s.pods && !s.pods[id].terminating
  }

  function RunningFor(s: State, uuid: Uuid): set<PodId> {
    set id | id in s.pods && !s.pods[id].terminating && s.pods[id].uuid == uuid
  }

  /** Whatever the caches show: one running pod per synthesis. */
  ghost predicate OneRunner(s: State) {
    && (forall id <- s.pods :: id < s.next)
    && (forall i <- s.pods, j <- s.pods :: s.pods[i].uuid == s.pods[j].uuid && !s.pods[i].terminating && !s.pods[j].terminating ==> i == j)
    && (s.phase.Creating? ==> NoRunner(s, s.phase.uuid))
  }

  lemma NextKeepsOneRunner(s: State, ev: Event)
    requires OneRunner(s)
    ensures OneRunner(NextPods(s, ev))
  {
  }

  lemma {:induction false} RunKeepsOneRunner(events: seq<Event>)
    ensures OneRunner(RunPods(events))
  {
    if events != [] {
      RunKeepsOneRunner(events[..|events| - 1]);
      NextKeepsOneRunner(RunPods(events[..|events| - 1]), events[|events| - 1]);
    }
  }

  /** In every run, even with stale caches, at most one pod that is not terminating exists per UUID. */
  lemma {:induction false} OnePodPerSynthesis(events: seq<Event>, uuid: Uuid)
    ensures |RunningFor(RunPods(events), uuid)| <= 1
  {
    RunKeepsOneRunner(events);
    var s := RunPods(events);
    var ids := RunningFor(s, uuid);
    if ids != {} {
      var id :| id in ids;
      assert ids == {id};
    }
  }

  /** The cached list is up to date. */
  predicate Fresh(s: State, view: seq<Listed>) {
    && (forall i, j :: 0 <= i < j < |view| ==> view[i].id != view[j].id)
    && (forall id <- s.pods :: Listed(id, s.pods[id]) in view)
  }

  predicate FreshRun(events: seq<Event>) {
    events == [] ||
    (FreshRun(events[..|events| - 1]) &&
     (events[|events| - 1].ListPods? ==> Fresh(RunPods(events[..|events| - 1]), events[|events| - 1].view)))
  }

  ghost predicate FewPods(s: State) {
    && (forall id <- s.pods :: id < s.next)
    && |s.pods| <= 2
    && (forall i <- s.pods, j <- s.pods :: !s.pods[i].terminating && !s.pods[j].terminating ==> i == j)
    && (s.phase.Proceeding? || s.phase.Creating? ==> |s.pods| <= 1 && forall id <- s.pods :: s.pods[id].terminating)
  }

  lemma VacancyIsReal(s: State, view: seq<Listed>)
    requires Fresh(s, view) && Vacant(view)
    ensures |s.pods| <= 1 && forall id <- s.pods :: s.pods[id].terminating
  {
    if view == [] {
      assert s.pods.Keys == {};
    } else {
      assert s.pods.Keys <= {view[0].id};
      SubsetSize(s.pods.Keys, {view[0].id});
    }
  }

  /** A step that only takes pods away or marks them. */
  ghost predicate Shrinks(s: State, t: State) {
    && t.pods.Keys <= s.pods.Keys && t.next == s.next
    && (forall id <- t.pods :: s.pods[id].terminating ==> t.pods[id].terminating)
    && (t.phase == s.phase || t.phase.Resting? || t.phase.Deleting? || (s.phase.Proceeding? && t.phase.Creating?))
  }

  lemma ShrinkKeepsFew(s: State, t: State)
    requires FewPods(s) && Shrinks(s, t)
    ensures FewPods(t)
  {
    SubsetSize(t.pods.Keys, s.pods.Keys);
  }

  lemma OthersShrink(s: State, ev: Event)
    requires !ev.ListPods? && !ev.SendCreate?
    ensures Shrinks(s, NextPods(s, ev))
  {
  }

  lemma ListKeepsFew(s: State, view: seq<Listed>)
    requires FewPods(s) && Fresh(s, view)
    ensures FewPods(NextPods(s, ListPods(view)))
  {
    if Vacant(view) { VacancyIsReal(s, view); }
  }

  lemma CreateKeepsFew(s: State, now: Time)
    requires FewPods(s)
    ensures FewPods(NextPods(s, SendCreate(now)))
  {
    var t := NextPods(s, SendCreate(now));
    if s.phase.Creating? {
      assert t.pods.Keys == s.pods.Keys + {s.next};
      assert forall id <- s.pods :: t.pods[id] == s.pods[id];
    }
  }

  lemma NextKeepsFew(s: State, ev: Event)
    requires FewPods(s) && (ev.ListPods? ==> Fresh(s, ev.view))
    ensures FewPods(NextPods(s, ev))
  {
    if ev.ListPods? {
      ListKeepsFew(s, ev.view);
    } else if ev.SendCreate? {
      CreateKeepsFew(s, ev.now);
    } else {
      OthersShrink(s, ev);
      ShrinkKeepsFew(s, NextPods(s, ev));
    }
  }

  lemma {:induction false} RunKeepsFew(events: seq<Event>)
    requires FreshRun(events)
    ensures FewPods(RunPods(events))
  {
    if events != [] {
      RunKeepsFew(events[..|events| - 1]);
      NextKeepsFew(RunPods(events[..|events| - 1]), events[|events| - 1]);
    }
  }

  /** With fresh lists a composition has at most two pods, of which at most one is not terminating. */
  lemma {:induction false} PodBounds(events: seq<Event>)
    requires FreshRun(events)
    ensures |RunPods(events).pods| <= 2 && |Running(RunPods(events))| <= 1
  {
    RunKeepsFew(events);
    var s := RunPods(events);
    var ids := Running(s);
    if ids != {} {
      var id :| id in ids;
      assert ids == {id};
    }
  }

  // ---------- The decisions, in the fields that they read ----------

  /** A running pod is kept if and only if the synthesizer exists, the composition is live and has the pod's
      synthesis in progress, the pod has not succeeded and is within its timeout, and it does not wait for
      a kubelet beyond the creation timeout; the latter counts only while no other pod is terminating and
      fewer than four attempts are on record. */
  lemma KeptExactly(c: Composition, timeout: Option<nat>, p: Pod, oneDeleting: bool, now: Time, creationTtl: nat)
    ensures !DeleteReason(c, timeout, p, oneDeleting, now, creationTtl) <==>
            && timeout.Some? && !c.deleting && !p.succeeded && now <= p.created + timeout.value
            && c.current.Some? && c.current.value.uuid == p.uuid && c.current.value.synthesized.None?
            && (oneDeleting || p.seenByKubelet || c.current.value.attempts > 3 || p.scheduled.None? || now <= p.scheduled.value + creationTtl)
  {
  }

  /** There is room for a new pod if and only if there is none, or a single one that is terminating. */
  lemma VacantExactly(pods: seq<Listed>)
    ensures Vacant(pods) <==> pods == [] || (|pods| == 1 && pods[0].pod.terminating)
  {
  }

  // ---------- The bounds are reached ----------

  function Waiting(uuid: Uuid): Pod {
    Pod(uuid, false, false, false, 0, None)
  }

  /** A pod is created and deleted, and the next one is created while it terminates. */
  function Handover(): seq<Event> {
    [ListPods([]), CheckUncached(1), SendCreate(0),
     ChooseVictim([Listed(0, Waiting(1))], 0), SendDelete,
     ListPods([Listed(0, Waiting(1).(terminating := true))]), CheckUncached(2), SendCreate(0)]
  }

  lemma RunNext(events: seq<Event>, n: nat)
    requires n < |events|
    ensures RunPods(events[..n + 1]) == NextPods(RunPods(events[..n]), events[n])
  {
    assert events[..n + 1][..n] == events[..n];
  }

  lemma AfterFirstPod()
    ensures RunPods(Handover()[..3]) == State(map[0 := Waiting(1)], 1, Resting)
  {
    var e := Handover();
    assert e[..0] == [];
    RunNext(e, 0);
    RunNext(e, 1);
    RunNext(e, 2);
  }

  lemma AfterFirstDeletion()
    ensures RunPods(Handover()[..5]) == State(map[0 := Waiting(1).(terminating := true)], 1, Resting)
  {
    var e := Handover();
    AfterFirstPod();
    RunNext(e, 3);
    RunNext(e, 4);
  }

  lemma {:induction false} FreshPrefix(events: seq<Event>, n: nat)
    requires n <= |events|
    requires forall i :: 0 <= i < n && events[i].ListPods? ==> Fresh(RunPods(events[..i]), events[i].view)
    ensures FreshRun(events[..n])
  {
    if n > 0 {
      FreshPrefix(events, n - 1);
      assert events[..n][..n - 1] == events[..n - 1];
    }
  }

  lemma SecondListIsFresh()
    ensures Fresh(RunPods(Handover()[..5]), [Listed(0, Waiting(1).(terminating := true))])
  {
    AfterFirstDeletion();
    var view := [Listed(0, Waiting(1).(terminating := true))];
    assert view[0] in view;
  }

  lemma HandoverIsFresh()
    ensures FreshRun(Handover())
  {
    var e := Handover();
    forall i | 0 <= i < 8 && e[i].ListPods? ensures Fresh(RunPods(e[..i]), e[i].view) {
      if i == 0 {
        assert e[..0] == [];
      } else {
        assert i == 5;
        SecondListIsFresh();
      }
    }
    FreshPrefix(e, 8);
    assert e[..8] == e;
  }

  /** With fresh lists two pods exist at the same time, one of which runs. */
  lemma BoundsAreReached()
    ensures FreshRun(Handover())
    ensures RunPods(Handover()).pods == map[0 := Waiting(1).(terminating := true), 1 := Waiting(2)]
  {
    var e := Handover();
    HandoverIsFresh();
    AfterFirstDeletion();
    RunNext(e, 5);
    RunNext(e, 6);
    RunNext(e, 7);
    assert e[..8] == e;
  }
}
