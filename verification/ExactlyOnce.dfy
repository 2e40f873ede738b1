/** For each synthesis at most one executor's result is stored, and it stays as it was stored. */
module ExactlyOnce {
  import opened Api
  import Inputs
  import opened History

  /** What a commit leaves behind. */
  lemma CommitEffect(h: Log, i: nat)
    requires Inv(h) && i < |h.writes| && h.writes[i].Commit?
    ensures h.versions[i].current.Some? && InProgress(h.versions[i].current.value)
    ensures h.versions[i].current.value.uuid == h.writes[i].env.uuid && h.writes[i].env.uuid != NO_UUID
    ensures h.versions[i + 1].current.Some?
    ensures var s, a := h.versions[i + 1].current.value, h.writes[i];
            && s.uuid == a.env.uuid && s.synthesized == Some(a.now) && s.slices == a.output.slices
            && s.results == a.output.results && s.inputRevisions == a.output.inputRevisions
            && s.observedSynthesizerGeneration == a.output.synthesizerGeneration
  {
    assert Good(h.versions[i], h.issued);
    assert Stepped(h.versions[i], h.writes[i], h.versions[i + 1]);
  }

  /** Whatever number of pods, attempts and conflict retries: two accepted commits have different UUIDs. */
  lemma {:induction false} AtMostOneCommit(c: Composition, requests: seq<Request>, i: nat, j: nat)
    requires Initial(c) && i < j < |Run(c, requests).writes|
    requires Run(c, requests).writes[i].Commit? && Run(c, requests).writes[j].Commit?
    ensures Run(c, requests).writes[i].env.uuid != Run(c, requests).writes[j].env.uuid
  {
    RunKeepsInv(c, requests);
    var h := Run(c, requests);
    CommitEffect(h, i);
    CommitEffect(h, j);
    var s, t := h.versions[i + 1].current.value, h.versions[j].current.value;
    assert Holds(h.versions[i + 1], s) && Holds(h.versions[j], t);
    assert Continues(h.versions[i + 1], h.versions[j]);
    assert s.uuid == t.uuid ==> Carries(h.versions[i + 1], h.versions[j], s, t);
  }

  /** In every later version the committed synthesis, as Current or Previous, is as it was stored. */
  lemma {:induction false} CommittedIsImmutable(c: Composition, requests: seq<Request>, i: nat, j: nat, t: Synthesis)
    requires Initial(c)
    requires i < |Run(c, requests).writes| && Run(c, requests).writes[i].Commit?
    requires i < j < |Run(c, requests).versions| && Holds(Run(c, requests).versions[j], t)
    requires t.uuid == Run(c, requests).writes[i].env.uuid
    ensures var a := Run(c, requests).writes[i];
            && t.slices == a.output.slices && t.results == a.output.results
            && t.inputRevisions == a.output.inputRevisions && t.synthesized == Some(a.now)
            && t.observedSynthesizerGeneration == a.output.synthesizerGeneration
  {
    RunKeepsInv(c, requests);
    var h := Run(c, requests);
    CommitEffect(h, i);
    var s := h.versions[i + 1].current.value;
    assert Holds(h.versions[i + 1], s);
    assert Continues(h.versions[i + 1], h.versions[j]);
    assert Carries(h.versions[i + 1], h.versions[j], s, t);
  }

  /** Once a result is stored, no other executor of that synthesis changes anything, whichever version
      it read and whatever attempt it is. */
  lemma {:induction false} LosersChangeNothing(c: Composition, requests: seq<Request>, i: nat, r: Request)
    requires Initial(c)
    requires i < |Run(c, requests).writes| && Run(c, requests).writes[i].Commit?
    requires r.action.Commit? && r.action.env.uuid == Run(c, requests).writes[i].env.uuid
    ensures Run(c, requests + [r]) == Run(c, requests)
  {
    var h := Run(c, requests);
    assert (requests + [r])[..|requests|] == requests;
    if Outcome(h, r).Some? {
      var h' := Serve(h, r);
      assert h' == Run(c, requests + [r]);
      assert h'.writes == h.writes + [r.action];
      AtMostOneCommit(c, requests + [r], i, |h.writes|);
    }
  }

  /** A commit is accepted if and only if it was computed from the newest version, and that version has the
      executor's synthesis in progress at no later attempt. */
  lemma CommitAcceptedExactly(h: Log, base: nat, a: Action)
    requires h.versions != [] && a.Commit? && a.env.uuid != NO_UUID
    ensures Outcome(h, Request(base, a)).Some? <==>
            && base == |h.versions| - 1
            && var current := h.versions[|h.versions| - 1].current;
               current.Some? && current.value.synthesized.None? && current.value.uuid == a.env.uuid && current.value.attempts <= a.env.attempt
  {
  }

  /** An attempt is accepted if and only if its synthesis is in progress in the version read, which was not
      being deleted, and still is in the newest one. */
  lemma AttemptAcceptedExactly(h: Log, base: nat, a: Action)
    requires h.versions != [] && a.RecordAttempt?
    ensures Outcome(h, Request(base, a)).Some? <==>
            && base < |h.versions| && !h.versions[base].deleting && a.uuid != NO_UUID
            && (var read := h.versions[base].current;
                read.Some? && read.value.synthesized.None? && read.value.uuid == a.uuid && read.value.attempts + 1 == a.attempts)
            && (var current := h.versions[|h.versions| - 1].current;
                current.Some? && current.value.synthesized.None? && current.value.uuid == a.uuid)
    ensures Outcome(h, Request(base, a)).Some? ==>
              var c, d := h.versions[|h.versions| - 1], Outcome(h, Request(base, a)).value;
              d.current.Some? && d == c.(current := Some(c.current.value.(attempts := a.attempts, podCreation := Some(a.now))))
  {
  }

  /** A dispatch is accepted if and only if Current has no UUID yet; it changes nothing but the UUID. */
  lemma DispatchAcceptedExactly(h: Log, base: nat)
    requires h.versions != [] && base < |h.versions|
    ensures Outcome(h, Request(base, Dispatch)).Some? <==> Newest(h).current.Some? && Newest(h).current.value.uuid == NO_UUID
    ensures Outcome(h, Request(base, Dispatch)).Some? ==>
              var c, d := Newest(h), Outcome(h, Request(base, Dispatch)).value;
              d.current.Some? && d == c.(current := Some(c.current.value.(uuid := h.issued + 1)))
  {
  }

  /** The watch's write: accepted from the newest version if it changes a revision; it requests a
      resynthesis if and only if the input is deferred, none is requested yet and side effects count. */
  lemma ObservedExactly(h: Log, r: InputRevision, deferred: bool, now: Time)
    requires h.versions != []
    ensures var c, out := Newest(h), Outcome(h, Request(|h.versions| - 1, ObserveInput(r, deferred, now)));
            && (out.None? <==> exists i :: 0 <= i < |c.inputRevisions| && c.inputRevisions[i] == r && forall j :: 0 <= j < i ==> c.inputRevisions[j].key != r.key)
            && (out.Some? ==> r in out.value.inputRevisions && out.value.current == c.current && out.value.previous == c.previous)
            && (out.Some? && (c.pending.Some? || c.ignoreSideEffects || !deferred) ==> out.value.pending == c.pending)
            && (out.Some? && c.pending.None? && !c.ignoreSideEffects && deferred ==> out.value.pending == Some(now))
  {
    var c := Newest(h);
    var i := Inputs.IndexOfKey(c.inputRevisions, r.key);
    var t := Inputs.WithRevision(c.inputRevisions, r);
    assert t[i] == r;
    if i < |c.inputRevisions| {
      assert t == c.inputRevisions <==> c.inputRevisions[i] == r;
    }
  }

  /** A resynthesis is requested only for a live, synthesized composition that has none pending and does not
      ignore side effects, and withdrawn only for one that has it pending and ignores them; the cleanup
      finalizer is added to live compositions that lack it. Nothing else of the composition changes. */
  lemma HousekeepingExactly(c: Composition, now: Time, uuid: Uuid)
    ensures Next(c, SetPending(now), uuid) ==
            if c.current.Some? && c.current.value.synthesized.Some? && !c.deleting && c.pending.None? && !c.ignoreSideEffects
            then Some(c.(pending := Some(now))) else None
    ensures Next(c, ClearPending, uuid) == if c.pending.Some? && c.ignoreSideEffects then Some(c.(pending := None)) else None
    ensures Next(c, AddFinalizer, uuid) == if !c.deleting && !c.finalizer then Some(c.(finalizer := true)) else None
    ensures Next(c, RolloutSwap(now), uuid).Some? <==> c.current.Some? && c.pending.Some?
    ensures Next(c, RolloutSwap(now), uuid).Some? ==>
              var d := Next(c, RolloutSwap(now), uuid).value;
              d.pending.None? && d.current.Some? && d.current.value.deferred && d.current.value.uuid == NO_UUID && d.current.value.observedGeneration == c.generation
  {
  }
}
