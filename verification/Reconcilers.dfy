/** The controllers' code that changes a composition in place, tied to the writes of `History`. */
module Reconcilers {
  import opened Api
  import opened Inputs
  import opened Lifecycle
  import opened Aggregation
  import opened History

  /** What one round of the deletion logic did. */
  datatype DeletionStep = Wrote(action: Action) | Waiting

  /** A composition in memory, as a controller holds it between its read and its write. */
  class CompositionObject {
    var generation: nat
    var deleting: bool
    var finalizer: bool
    var bindings: seq<string>
    var ignoreSideEffects: bool
    var orphan: bool
    var current: Option<Synthesis>
    var previous: Option<Synthesis>
    var pending: Option<Time>
    var inputRevisions: seq<InputRevision>

    function Value(): Composition
      reads this
    {
      Composition(generation, deleting, finalizer, bindings, ignoreSideEffects, orphan, current, previous, pending, inputRevisions)
    }

    constructor (c: Composition)
      ensures Value() == c
    {
      generation, deleting, finalizer := c.generation, c.deleting, c.finalizer;
      bindings, ignoreSideEffects, orphan := c.bindings, c.ignoreSideEffects, c.orphan;
      current, previous, pending, inputRevisions := c.current, c.previous, c.pending, c.inputRevisions;
    }

    method SwapStates(now: Time)
      modifies `current, `previous
      ensures Value() == Swapped(old(Value()), now)
    {
      if current.Some? && current.value.synthesized.Some? && !Failed(current.value) {
        previous := current;
      }
      current := Some(FreshSynthesis(generation, now));
    }

    /** The rollout controller's write. */
    method DeferredSwap(now: Time)
      requires Enabled(Value(), RolloutSwap(now))
      modifies `current, `previous, `pending
      ensures Value() == Apply(old(Value()), RolloutSwap(now), NO_UUID)
    {
      SwapStates(now);
      current := Some(current.value.(deferred := true));
      pending := None;
    }

    /** One round for a composition that is being deleted: revert, else mark, else remove the finalizer
        once nothing is being reconciled. `uuid` is the UUID drawn if the composition is marked. */
    method ReconcileDeleted(uuid: Uuid, now: Time) returns (step: DeletionStep)
      requires deleting
      modifies this
      ensures step.Wrote? ==> Next(old(Value()), step.action, uuid) == Some(Value()) && step.action in {Revert, Mark(now), RemoveFinalizer}
      ensures step.Waiting? ==> Value() == old(Value())
      ensures step.Waiting? ==> Next(Value(), Revert, uuid).None? && Next(Value(), Mark(now), uuid).None? && Next(Value(), RemoveFinalizer, uuid).None?
    {
      if previous.Some? && (current.None? || current.value.synthesized.None?) {
        current := previous;
        previous := None;
        return Wrote(Revert);
      }
      if current.Some? && (current.value.observedGeneration != generation || current.value.synthesized.None?) {
        var s := current.value.(observedGeneration := generation, ready := None, uuid := uuid);
        if (previous.None? || previous.value.synthesized.None?) && s.synthesized.None? {
          s := s.(reconciled := Some(now));
        } else {
          s := s.(reconciled := None);
        }
        current := Some(s.(synthesized := Some(now)));
        return Wrote(Mark(now));
      }
      if current.Some? && (current.value.reconciled.None? || current.value.observedGeneration != generation) {
        return Waiting;
      }
      if finalizer {
        finalizer := false;
        return Wrote(RemoveFinalizer);
      }
      step := Waiting;
    }

    /** The executor's rewrite of Current; false when its synthesis is no longer relevant. */
    method RecordOutput(env: Env, o: Output, now: Time) returns (relevant: bool)
      requires env.uuid != NO_UUID
      modifies `current
      ensures relevant <==> Enabled(old(Value()), Commit(env, o, now))
      ensures if relevant then Next(old(Value()), Commit(env, o, now), NO_UUID) == Some(Value()) else Value() == old(Value())
    {
      if SkipSynthesis(Value(), env) {
        return false;
      }
      var s := current.value.(synthesized := Some(now), slices := o.slices,
        observedSynthesizerGeneration := o.synthesizerGeneration, inputRevisions := o.inputRevisions);
      var results := s.results;
      for i := 0 to |o.results|
        invariant results == s.results + o.results[..i]
      {
        results := results + [o.results[i]];
      }
      assert o.results[..|o.results|] == o.results;
      current := Some(s.(results := results));
      relevant := true;
    }

    /** One round of the status aggregation; true when the status is to be written. */
    method Aggregate(view: View, now: Time) returns (write: bool)
      requires !StatusTerminal(Value()) ==> |view| == |current.value.slices|
      modifies `current
      ensures write <==> ShouldAggregate(old(Value()), view)
      ensures if write then Value() == Aggregated(old(Value()), view, now) else Value() == old(Value())
    {
      if StatusTerminal(Value()) {
        return false;
      }
      var aborted, ready, reconciled, latest := FoldSlices(Value(), view);
      if aborted || StatusInSync(Value(), reconciled, ready) {
        return false;
      }
      var s := current.value;
      if |s.slices| == 0 {
        latest := s.reconciled;
      }
      current := Some(s.(
        ready := if ready && latest.Some? then latest else None,
        reconciled := if reconciled then Some(now) else None));
      write := true;
    }

    /** The watch's write for one input. */
    method ObserveInput(r: InputRevision, deferred: bool, now: Time) returns (write: bool)
      modifies `inputRevisions, `pending
      ensures write <==> Enabled(old(Value()), Action.ObserveInput(r, deferred, now))
      ensures if write then Next(old(Value()), Action.ObserveInput(r, deferred, now), NO_UUID) == Some(Value()) else Value() == old(Value())
    {
      var revisions, changed := SetInputRevisions(inputRevisions, r);
      if !changed {
        return false;
      }
      inputRevisions := revisions;
      if deferred && pending.None? && !ignoreSideEffects {
        pending := Some(now);
      }
      write := true;
    }

    method PruneInputs() returns (write: bool)
      modifies `inputRevisions
      ensures write <==> Enabled(old(Value()), Action.PruneInputs)
      ensures if write then Next(old(Value()), Action.PruneInputs, NO_UUID) == Some(Value()) else Value() == old(Value())
    {
      var revisions := PruneOne(inputRevisions, bindings);
      write := revisions != inputRevisions;
      inputRevisions := revisions;
    }
  }

  // ---------- The executor's retry loop ----------

  function ServeAll(h: Log, requests: seq<Request>): (h': Log)
    requires h.versions != []
    ensures h'.versions != []
  {
    if requests == [] then h else Serve(ServeAll(h, requests[..|requests| - 1]), requests[|requests| - 1])
  }

  function Concat(rounds: seq<seq<Request>>): seq<Request> {
    if rounds == [] then [] else Concat(rounds[..|rounds| - 1]) + rounds[|rounds| - 1]
  }

  lemma {:induction false} ServeAllConcat(h: Log, a: seq<Request>, b: seq<Request>)
    requires h.versions != []
    ensures ServeAll(h, a + b) == ServeAll(ServeAll(h, a), b)
  {
    if b == [] {
      assert a + b == a;
    } else {
      assert (a + b)[..|a + b| - 1] == a + b[..|b| - 1];
      ServeAllConcat(h, a, b[..|b| - 1]);
    }
  }

  lemma {:induction false} ServeAllGrows(h: Log, a: seq<Request>)
    requires h.versions != []
    ensures |h.versions| <= |ServeAll(h, a).versions|
    ensures |h.versions| == |ServeAll(h, a).versions| ==> ServeAll(h, a) == h
  {
    if a != [] {
      ServeAllGrows(h, a[..|a| - 1]);
    }
  }

  datatype CommitOutcome = Committed | Skipped | GaveUp

  class CompositionStore {
    var log: Log

    constructor (h: Log)
      ensures log == h
    {
      log := h;
    }

    /** Reads, checks and writes until the write is not in conflict. `others[i]` is what everybody else
        gets done between the i-th read and the i-th write, `n` the number of rounds. Whatever the
        outcome, the executor itself changes the store at most once, by its own commit, and not at all
        when it is skipped or gives up; it gives up only if every write was in conflict. */
    method UpdateComposition(env: Env, output: Output, now: Time, others: seq<seq<Request>>)
      returns (r: CommitOutcome, ghost n: nat)
      requires log.versions != [] && env.uuid != NO_UUID
      modifies this
      ensures n <= |others|
      ensures var h := ServeAll(old(log), Concat(others[..n]));
              match r
              case Committed => log == Serve(h, Request(|h.versions| - 1, Commit(env, output, now))) && log != h
              case Skipped => log == h && SkipSynthesis(Newest(h), env)
              case GaveUp => log == h && n == |others|
    {
      for i := 0 to |others|
        invariant log == ServeAll(old(log), Concat(others[..i]))
      {
        var base := |log.versions| - 1;
        if SkipSynthesis(log.versions[base], env) {
          return Skipped, i;
        }
        var request := Request(base, Commit(env, output, now));
        ghost var before := log;
        assert others[..i + 1][..i] == others[..i];
        ServeAllConcat(old(log), Concat(others[..i]), others[i]);
        ServeAllGrows(before, others[i]);
        log := ServeAll(log, others[i]);
        var after := Serve(log, request);
        if |after.versions| != |log.versions| {
          assert log == before;
          log := after;
          return Committed, i + 1;
        }
        assert after == log;
      }
      assert others[..|others|] == others;
      r, n := GaveUp, |others|;
    }
  }
}
