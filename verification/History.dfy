/** The shared store of one composition as the log of all its versions, together with the writes
    that the server accepted. A reader may hold any version; an `Update` names the version it was
    computed from and is accepted only if that is still the newest one; a JSON patch is tested
    against the newest version, although its values may stem from an older one. */
module History {
  import opened Api
  import opened Inputs
  import opened Lifecycle
  import opened Aggregation

  datatype Action =
    // users
    | EditSpec(bindings: seq<string>)
    | EditAnnotations(ignoreSideEffects: bool, orphan: bool)
    | RequestDeletion
    // pod lifecycle controller
    | AddFinalizer
    | Swap(synth: Synthesizer, now: Time)
    | RecordAttempt(uuid: Uuid, attempts: nat, now: Time)
    | Revert
    | Mark(now: Time)
    | RemoveFinalizer
    // rollout controllers; that the synthesizer is newer and the inputs are in lockstep makes the first
    // one rarer and is left out
    | SetPending(now: Time)
    | ClearPending
    | RolloutSwap(now: Time)
    // concurrency limiter
    | Dispatch
    // executor
    | Commit(env: Env, output: Output, now: Time)
    // status aggregation
    | Aggregate(view: View, now: Time)
    // input watches
    | ObserveInput(revision: InputRevision, deferred: bool, now: Time)
    | PruneInputs

  /** What the rewrite itself presupposes, and what the server's tests check. */
  predicate Fits(c: Composition, a: Action) {
    match a
    case RequestDeletion => !c.deleting
    case Swap(_, _) => !c.deleting
    case RecordAttempt(uuid, _, _) => uuid != NO_UUID && MayRecordAttempt(c, uuid)
    case Revert => c.deleting && ShouldRevert(c)
    case Mark(_) => c.deleting && !ShouldRevert(c) && ShouldMark(c)
    case RolloutSwap(_) => c.current.Some?
    case Dispatch => AwaitsDispatch(c)
    case Commit(env, _, _) => env.uuid != NO_UUID && !SkipSynthesis(c, env)
    case Aggregate(_, _) => c.current.Some? && c.current.value.synthesized.Some?
    case _ => true
  }

  /** The rest of the actor's decision. */
  predicate Decides(c: Composition, a: Action) {
    match a
    case AddFinalizer => !c.deleting && !c.finalizer
    case Swap(synth, _) => ShouldSwap(c, synth)
    case RemoveFinalizer => c.deleting && !ShouldRevert(c) && !ShouldMark(c) && !IsReconciling(c) && c.finalizer
    case SetPending(_) => c.current.Some? && c.current.value.synthesized.Some? && !c.deleting && c.pending.None? && !c.ignoreSideEffects
    case ClearPending => c.pending.Some? && c.ignoreSideEffects
    case RolloutSwap(_) => c.pending.Some?
    case Aggregate(view, _) => ShouldAggregate(c, view)
    case ObserveInput(revision, _, _) => WithRevision(c.inputRevisions, revision) != c.inputRevisions
    case PruneInputs => Pruned(c.inputRevisions, c.bindings) != c.inputRevisions
    case _ => true
  }

  /** Whether the actor sends this write, or the server accepts this patch, for version `c`. */
  predicate Enabled(c: Composition, a: Action) {
    Fits(c, a) && Decides(c, a)
  }

  /** The next version; `drawn` is the UUID drawn if the write needs one. */
  function Apply(c: Composition, a: Action, drawn: Uuid): Composition
    requires Fits(c, a)
  {
    match a
    case EditSpec(bindings) => c.(bindings := bindings, generation := c.generation + 1)
    case EditAnnotations(ignore, orphan) => c.(ignoreSideEffects := ignore, orphan := orphan)
    case RequestDeletion => c.(deleting := true, generation := c.generation + 1)
    case AddFinalizer => c.(finalizer := true)
    case Swap(_, now) => Swapped(c, now)
    case RecordAttempt(_, attempts, now) => AttemptRecorded(c, attempts, now)
    case Revert => Reverted(c)
    case Mark(now) => Marked(c, drawn, now)
    case RemoveFinalizer => c.(finalizer := false)
    case SetPending(now) => c.(pending := Some(now))
    case ClearPending => c.(pending := None)
    case RolloutSwap(now) =>
      var d := Swapped(c, now);
      d.(current := Some(d.current.value.(deferred := true)), pending := None)
    case Dispatch => Dispatched(c, drawn)
    case Commit(_, output, now) => Committed(c, output, now)
    case Aggregate(view, now) => Aggregated(c, view, now)
    case ObserveInput(revision, deferred, now) =>
      c.(inputRevisions := WithRevision(c.inputRevisions, revision),
         pending := if deferred && c.pending.None? && !c.ignoreSideEffects then Some(now) else c.pending)
    case PruneInputs => c.(inputRevisions := Pruned(c.inputRevisions, c.bindings))
  }

  /** The version that a write leads to, if it is possible at all. */
  function Next(c: Composition, a: Action, drawn: Uuid): Option<Composition> {
    if Enabled(c, a) then Some(Apply(c, a, drawn)) else None
  }

  /** The same without the actor's decision, which most proofs do not need. */
  function Rewrite(c: Composition, a: Action, drawn: Uuid): Option<Composition> {
    if Fits(c, a) then Some(Apply(c, a, drawn)) else None
  }

  lemma NextRewrites(c: Composition, a: Action, drawn: Uuid)
    ensures Next(c, a, drawn).Some? ==> Rewrite(c, a, drawn) == Next(c, a, drawn)
  {
  }

  /** The writes that change Current or Previous. */
  predicate Touches(a: Action) {
    a.Swap? || a.RolloutSwap? || a.RecordAttempt? || a.Revert? || a.Mark? || a.Dispatch? || a.Commit? || a.Aggregate?
  }

  lemma QuietStep(c: Composition, a: Action, d: Composition, drawn: Uuid)
    requires Rewrite(c, a, drawn) == Some(d) && !Touches(a)
    ensures d.current == c.current && d.previous == c.previous && Ages(c, d)
    ensures d.generation == c.generation ==> d.deleting == c.deleting
  {
  }

  /** The first input that is observed, if it is a deferred one. */
  lemma FirstInput(c: Composition, r: InputRevision, now: Time, drawn: Uuid)
    requires c.inputRevisions == [] && c.pending.None? && !c.ignoreSideEffects
    ensures Next(c, ObserveInput(r, true, now), drawn) == Some(c.(inputRevisions := [r], pending := Some(now)))
  {
    var none: seq<InputRevision> := [];
    assert none + [r] == [r];
    assert WithRevision(none, r) == [r];
  }

  predicate IsPatch(a: Action) {
    a.Dispatch? || a.RecordAttempt?
  }

  predicate DrawsUuid(a: Action) {
    a.Dispatch? || a.Mark?
  }

  /** `writes[i]` turned `versions[i]` into `versions[i + 1]`; `issued` is the last UUID drawn. */
  datatype Log = Log(versions: seq<Composition>, writes: seq<Action>, issued: Uuid)

  ghost predicate Shape(h: Log) {
    |h.versions| == |h.writes| + 1
  }

  function Newest(h: Log): Composition
    requires h.versions != []
  {
    h.versions[|h.versions| - 1]
  }

  /** A request: the version its author read and the write it wants. */
  datatype Request = Request(base: nat, action: Action)

  /** The patch that records an attempt carries the UUID and the next attempt of the version read. */
  predicate FromItsBase(c: Composition, a: Action) {
    a.RecordAttempt? ==> Active(c) && !c.deleting && a.uuid == c.current.value.uuid && a.attempts == c.current.value.attempts + 1
  }

  /** The version that the server would store for a request. */
  function Outcome(h: Log, r: Request): Option<Composition>
    requires h.versions != []
  {
    if r.base < |h.versions| && (IsPatch(r.action) || r.base == |h.versions| - 1) && FromItsBase(h.versions[r.base], r.action)
    then Next(Newest(h), r.action, h.issued + 1)
    else None
  }

  /** The server: an accepted write appends a version, anything else changes nothing. */
  function Serve(h: Log, r: Request): Log
    requires h.versions != []
  {
    match Outcome(h, r)
    case None => h
    case Some(d) => Append(h, r.action, d)
  }

  function Append(h: Log, a: Action, d: Composition): Log {
    Log(h.versions + [d], h.writes + [a], if DrawsUuid(a) then h.issued + 1 else h.issued)
  }

  /** A composition as users create it. */
  predicate Initial(c: Composition) {
    !c.deleting && c.current.None? && c.previous.None? && c.pending.None? && c.inputRevisions == []
  }

  function Start(c: Composition): Log {
    Log([c], [], 0)
  }

  function Run(c: Composition, requests: seq<Request>): (h: Log)
    ensures h.versions != []
  {
    if requests == [] then Start(c)
    else Serve(Run(c, requests[..|requests| - 1]), requests[|requests| - 1])
  }

  // ---------- What every version satisfies ----------

  ghost predicate Holds(c: Composition, s: Synthesis) {
    c.current == Some(s) || c.previous == Some(s)
  }

  ghost predicate InBounds(c: Composition, issued: Uuid) {
    && (c.current.Some? ==> Bounded(c.current.value, c.generation, issued))
    && (c.previous.Some? ==> Bounded(c.previous.value, c.generation, issued))
  }

  ghost predicate PreviousStands(c: Composition) {
    c.previous.Some? ==>
      && Succeeded(c.previous.value)
      && c.previous.value.uuid != NO_UUID
      && c.current.Some?
      && c.current.value.uuid != c.previous.value.uuid
  }

  ghost predicate CurrentIsClean(c: Composition) {
    c.current.Some? ==>
      && (InProgress(c.current.value) ==>
            c.current.value.slices == [] && c.current.value.results == [] && c.current.value.reconciled.None?)
      && (c.current.value.synthesized.Some? ==> c.current.value.uuid != NO_UUID)
  }

  /** The composition status invariant, for one version. */
  ghost predicate Good(c: Composition, issued: Uuid) {
    InBounds(c, issued) && PreviousStands(c) && CurrentIsClean(c)
  }

  predicate Bounded(s: Synthesis, generation: nat, issued: Uuid) {
    s.observedGeneration <= generation && s.uuid <= issued
  }

  /** How the same synthesis may differ between an earlier and a later version: the generation never
      changes, and nothing that a commit wrote changes afterwards. */
  ghost predicate Evolves(s: Synthesis, t: Synthesis) {
    && t.observedGeneration == s.observedGeneration
    && t.deferred == s.deferred
    && (s.synthesized.Some? ==>
          && t.synthesized == s.synthesized
          && t.slices == s.slices
          && t.results == s.results
          && t.inputRevisions == s.inputRevisions
          && t.observedSynthesizerGeneration == s.observedSynthesizerGeneration
          && t.attempts == s.attempts)
  }

  /** Generations never go back and a deletion is never taken back. */
  predicate Ages(c: Composition, d: Composition) {
    c.generation <= d.generation && (c.deleting ==> d.deleting)
  }

  /** `s` of version `c` is still `t` in a later version `d`; if it is in progress there, it has been
      Current all along, with the same Previous. */
  ghost predicate Carries(c: Composition, d: Composition, s: Synthesis, t: Synthesis) {
    && s.uuid == t.uuid
    && Evolves(s, t)
    && (InProgress(t) ==> c.current == Some(s) && InProgress(s) && d.current == Some(t) && c.previous == d.previous)
  }

  ghost predicate Continues(c: Composition, d: Composition) {
    && Ages(c, d)
    && forall s, t :: Holds(c, s) && Holds(d, t) && s.uuid == t.uuid && s.uuid != NO_UUID ==> Carries(c, d, s, t)
  }

  /** Every synthesis of `d` has no UUID yet, a new UUID, or comes from `c`. */
  ghost predicate Follows(c: Composition, d: Composition, issued: Uuid) {
    && Ages(c, d)
    && forall t :: Holds(d, t) ==>
      t.uuid == NO_UUID || t.uuid > issued || exists s :: Holds(c, s) && Carries(c, d, s, t)
  }

  /** `t` of the next version comes from Current or Previous of this one. */
  ghost predicate ComesFrom(c: Composition, d: Composition, t: Synthesis) {
    (c.current.Some? && Carries(c, d, c.current.value, t)) || (c.previous.Some? && Carries(c, d, c.previous.value, t))
  }

  lemma CurrentFollows(c: Composition, a: Action, d: Composition, issued: Uuid)
    requires Good(c, issued) && Rewrite(c, a, issued + 1) == Some(d) && d.current.Some?
    ensures d.current.value.uuid == NO_UUID || d.current.value.uuid > issued || ComesFrom(c, d, d.current.value)
  {
    if !Touches(a) {
      QuietStep(c, a, d, issued + 1);
    }
  }

  lemma PreviousFollows(c: Composition, a: Action, d: Composition, issued: Uuid)
    requires Good(c, issued) && Rewrite(c, a, issued + 1) == Some(d) && d.previous.Some?
    ensures ComesFrom(c, d, d.previous.value)
  {
    if !Touches(a) {
      QuietStep(c, a, d, issued + 1);
    }
  }

  lemma StepAges(c: Composition, a: Action, d: Composition, drawn: Uuid)
    requires Rewrite(c, a, drawn) == Some(d)
    ensures Ages(c, d)
  {
  }

  lemma StepFollows(c: Composition, a: Action, d: Composition, issued: Uuid)
    requires Good(c, issued) && Rewrite(c, a, issued + 1) == Some(d)
    ensures Follows(c, d, issued)
  {
    StepAges(c, a, d, issued + 1);
    forall t | Holds(d, t)
      ensures t.uuid == NO_UUID || t.uuid > issued || exists s :: Holds(c, s) && Carries(c, d, s, t)
    {
      if d.current == Some(t) {
        CurrentFollows(c, a, d, issued);
      } else {
        PreviousFollows(c, a, d, issued);
      }
      if c.current.Some? { assert Holds(c, c.current.value); }
      if c.previous.Some? { assert Holds(c, c.previous.value); }
    }
  }

  lemma StepInBounds(c: Composition, a: Action, d: Composition, issued: Uuid)
    requires InBounds(c, issued) && Rewrite(c, a, issued + 1) == Some(d)
    ensures InBounds(d, if DrawsUuid(a) then issued + 1 else issued)
  {
  }

  lemma StepPreviousStands(c: Composition, a: Action, d: Composition, issued: Uuid)
    requires Good(c, issued) && Rewrite(c, a, issued + 1) == Some(d)
    ensures PreviousStands(d)
  {
  }

  lemma StepCurrentIsClean(c: Composition, a: Action, d: Composition, issued: Uuid)
    requires Good(c, issued) && Rewrite(c, a, issued + 1) == Some(d)
    ensures CurrentIsClean(d)
  {
  }

  lemma StepGood(c: Composition, a: Action, d: Composition, issued: Uuid)
    requires Good(c, issued) && Rewrite(c, a, issued + 1) == Some(d)
    ensures Good(d, if DrawsUuid(a) then issued + 1 else issued)
  {
    StepInBounds(c, a, d, issued);
    StepPreviousStands(c, a, d, issued);
    StepCurrentIsClean(c, a, d, issued);
  }

  ghost predicate AllGood(versions: seq<Composition>, issued: Uuid) {
    forall i :: 0 <= i < |versions| ==> Good(versions[i], issued)
  }

  ghost predicate AllContinue(versions: seq<Composition>) {
    forall i, j :: 0 <= i <= j < |versions| ==> Continues(versions[i], versions[j])
  }

  /** Every later version is the effect of its write. */
  ghost predicate Justified(h: Log) {
    && Shape(h)
    && forall i :: 0 <= i < |h.writes| ==> Stepped(h.versions[i], h.writes[i], h.versions[i + 1])
  }

  ghost predicate Stepped(c: Composition, a: Action, d: Composition) {
    exists drawn :: Next(c, a, drawn) == Some(d)
  }

  ghost predicate Inv(h: Log) {
    AllGood(h.versions, h.issued) && AllContinue(h.versions) && Justified(h)
  }

  lemma ContinuesSelf(c: Composition, issued: Uuid)
    requires Good(c, issued)
    ensures Continues(c, c)
  {
  }

  lemma ContinuesStep(b: Composition, c: Composition, d: Composition, issued: Uuid)
    requires Good(b, issued) && Continues(b, c) && Follows(c, d, issued)
    ensures Continues(b, d)
  {
    forall s, t | Holds(b, s) && Holds(d, t) && s.uuid == t.uuid && s.uuid != NO_UUID ensures Carries(b, d, s, t) {
      assert s.uuid <= issued;
      var m :| Holds(c, m) && Carries(c, d, m, t);
      assert Carries(b, c, s, m);
    }
  }

  lemma GoodMonotone(c: Composition, issued: Uuid, later: Uuid)
    requires Good(c, issued) && issued <= later
    ensures Good(c, later)
  {
  }

  lemma AppendKeepsVersions(versions: seq<Composition>, d: Composition, issued: Uuid, later: Uuid)
    requires versions != [] && AllGood(versions, issued) && AllContinue(versions)
    requires Good(d, later) && issued <= later && Follows(versions[|versions| - 1], d, issued)
    ensures AllGood(versions + [d], later) && AllContinue(versions + [d])
  {
    var n := |versions|;
    forall i | 0 <= i < n ensures Good(versions[i], later) && Continues(versions[i], d) {
      GoodMonotone(versions[i], issued, later);
      ContinuesStep(versions[i], versions[n - 1], d, issued);
    }
    ContinuesSelf(d, later);
  }

  lemma AppendKeepsJustified(h: Log, a: Action, d: Composition)
    requires Justified(h) && Stepped(Newest(h), a, d)
    ensures Justified(Append(h, a, d))
  {
    var h' := Append(h, a, d);
    forall i | 0 <= i < |h'.writes| ensures Stepped(h'.versions[i], h'.writes[i], h'.versions[i + 1]) {
      if i < |h.writes| { assert Stepped(h.versions[i], h.writes[i], h.versions[i + 1]); }
    }
  }

  lemma AppendKeepsInv(h: Log, a: Action, d: Composition)
    requires Inv(h) && Good(d, Append(h, a, d).issued) && Follows(Newest(h), d, h.issued) && Stepped(Newest(h), a, d)
    ensures Inv(Append(h, a, d))
  {
    AppendKeepsVersions(h.versions, d, h.issued, Append(h, a, d).issued);
    AppendKeepsJustified(h, a, d);
  }

  lemma ServeKeepsInv(h: Log, r: Request)
    requires Inv(h)
    ensures Inv(Serve(h, r))
  {
    match Outcome(h, r)
    case None =>
    case Some(d) =>
      assert Good(Newest(h), h.issued);
      NextRewrites(Newest(h), r.action, h.issued + 1);
      StepGood(Newest(h), r.action, d, h.issued);
      StepFollows(Newest(h), r.action, d, h.issued);
      AppendKeepsInv(h, r.action, d);
  }

  lemma {:induction false} RunKeepsInv(c: Composition, requests: seq<Request>)
    requires Initial(c)
    ensures Inv(Run(c, requests))
  {
    if requests != [] {
      RunKeepsInv(c, requests[..|requests| - 1]);
      ServeKeepsInv(Run(c, requests[..|requests| - 1]), requests[|requests| - 1]);
    }
  }

  lemma PreviousIsStable(c: Composition, a: Action, d: Composition, issued: Uuid, drawn: Uuid)
    requires Good(c, issued) && Rewrite(c, a, drawn) == Some(d)
    requires c.current.Some? && d.current.Some? && c.current.value.uuid == d.current.value.uuid && c.current.value.uuid != NO_UUID
    ensures c.previous == d.previous
  {
    if !Touches(a) {
      QuietStep(c, a, d, drawn);
    }
  }

  /** Every version of every run: Previous is synthesized and did not fail, an unfinished Current has
      no slices, no observed generation is ahead of the composition, and Current and Previous have
      different UUIDs. */
  lemma {:induction false} StatusInvariant(c: Composition, requests: seq<Request>, i: nat)
    requires Initial(c) && i < |Run(c, requests).versions|
    ensures var v := Run(c, requests).versions[i];
            && (v.previous.Some? ==> v.previous.value.synthesized.Some? && !Failed(v.previous.value))
            && (v.current.Some? && v.current.value.synthesized.None? ==> v.current.value.slices == [])
            && (forall s :: Holds(v, s) ==> s.observedGeneration <= v.generation)
            && (v.current.Some? && v.previous.Some? ==> v.current.value.uuid != v.previous.value.uuid)
  {
    RunKeepsInv(c, requests);
    var h := Run(c, requests);
    assert Good(h.versions[i], h.issued);
  }

  /** From one version to the next, Previous does not change while Current keeps a non-empty UUID. */
  lemma {:induction false} PreviousNeverMovesAlone(c: Composition, requests: seq<Request>, i: nat)
    requires Initial(c) && i + 1 < |Run(c, requests).versions|
    ensures var v, w := Run(c, requests).versions[i], Run(c, requests).versions[i + 1];
            v.current.Some? && w.current.Some? && v.current.value.uuid == w.current.value.uuid && v.current.value.uuid != NO_UUID
            ==> v.previous == w.previous
  {
    RunKeepsInv(c, requests);
    var h := Run(c, requests);
    var v, w := h.versions[i], h.versions[i + 1];
    assert Good(v, h.issued) && Stepped(v, h.writes[i], w);
    if v.current.Some? && w.current.Some? && v.current.value.uuid == w.current.value.uuid && v.current.value.uuid != NO_UUID {
      var drawn :| Next(v, h.writes[i], drawn) == Some(w);
      NextRewrites(v, h.writes[i], drawn);
      PreviousIsStable(v, h.writes[i], w, h.issued, drawn);
    }
  }
}
