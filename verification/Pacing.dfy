/** The attempt counter of a synthesis. The patch that records an attempt writes one more than the
    version its author had read, and one worker writes it, so the counter never falls as long as
    the worker's reads of the composition do not go back, however stale they are. */
module Pacing {
  import opened Api
  import opened Lifecycle
  import opened History

  /** If the request is accepted, it does not lower the counter. */
  predicate NotLowered(log: Log, r: Request)
    requires log.versions != []
  {
    r.action.RecordAttempt? && Outcome(log, r).Some? ==> r.action.attempts >= Newest(log).current.value.attempts
  }

  /** Both versions have the same synthesis in progress. */
  predicate SameWork(c: Composition, d: Composition) {
    Active(c) && Active(d) && c.current.value.uuid == d.current.value.uuid
  }

  /** The version that the last accepted attempt was computed from. */
  function NextBase(log: Log, r: Request, last: nat): nat
    requires log.versions != []
  {
    if r.action.RecordAttempt? && Outcome(log, r).Some? then r.base else last
  }

  /** The worker's read is not older than the one behind the last attempt. */
  predicate ReadsForward(log: Log, r: Request, last: nat)
    requires log.versions != []
  {
    r.action.RecordAttempt? && Outcome(log, r).Some? ==> r.base >= last
  }

  /** The counter never fell, and is at most one ahead of every version that may still be read. */
  ghost predicate Paced(log: Log, last: nat) {
    && log.versions != []
    && (forall i, j :: 0 <= i <= j < |log.versions| && SameWork(log.versions[i], log.versions[j]) ==>
          log.versions[i].current.value.attempts <= log.versions[j].current.value.attempts)
    && (forall i :: last <= i < |log.versions| && SameWork(log.versions[i], Newest(log)) ==>
          Newest(log).current.value.attempts <= log.versions[i].current.value.attempts + 1)
  }

  /** A synthesis that is in progress and not new was so before, and only an attempt changes its counter. */
  lemma StepAttempts(c: Composition, a: Action, d: Composition, issued: Uuid)
    requires Good(c, issued) && Rewrite(c, a, issued + 1) == Some(d) && Active(d) && d.current.value.uuid <= issued
    ensures SameWork(c, d)
    ensures d.current.value.attempts == if a.RecordAttempt? then a.attempts else c.current.value.attempts
  {
  }

  /** An accepted attempt was computed from a version with the same synthesis in progress. */
  lemma AttemptSource(log: Log, r: Request)
    requires log.versions != [] && r.action.RecordAttempt? && Outcome(log, r).Some?
    ensures r.base < |log.versions| && SameWork(log.versions[r.base], Newest(log))
    ensures r.action.attempts == log.versions[r.base].current.value.attempts + 1
  {
  }

  /** How a write moves the counter. */
  lemma OutcomeAttempts(log: Log, r: Request, d: Composition, v: Composition)
    requires log.versions != [] && Outcome(log, r) == Some(d) && SameWork(v, d)
    requires Good(Newest(log), log.issued) && v.current.value.uuid <= log.issued
    ensures SameWork(v, Newest(log))
    ensures d.current.value.attempts == if r.action.RecordAttempt? then r.action.attempts else Newest(log).current.value.attempts
  {
    NextRewrites(Newest(log), r.action, log.issued + 1);
    StepAttempts(Newest(log), r.action, d, log.issued);
  }

  /** The same, seen from an earlier version. */
  lemma CounterMoves(log: Log, r: Request, d: Composition, last: nat, i: nat)
    requires Inv(log) && Paced(log, last) && ReadsForward(log, r, last)
    requires Outcome(log, r) == Some(d) && i < |log.versions| && SameWork(log.versions[i], d)
    ensures log.versions[i].current.value.attempts <= d.current.value.attempts
    ensures NextBase(log, r, last) <= i ==> d.current.value.attempts <= log.versions[i].current.value.attempts + 1
  {
    assert Good(Newest(log), log.issued) && Good(log.versions[i], log.issued);
    OutcomeAttempts(log, r, d, log.versions[i]);
    assert SameWork(log.versions[i], log.versions[|log.versions| - 1]);
    if r.action.RecordAttempt? {
      AttemptSource(log, r);
      assert r.base <= i ==> SameWork(log.versions[r.base], log.versions[i]);
    }
  }

  /** While reads do not go back the counter is not lowered, and this stays so. */
  lemma ServeKeepsPaced(log: Log, r: Request, last: nat)
    requires Inv(log) && Paced(log, last) && ReadsForward(log, r, last)
    ensures NotLowered(log, r)
    ensures Paced(Serve(log, r), NextBase(log, r, last))
  {
    match Outcome(log, r)
    case None =>
    case Some(d) =>
      if r.action.RecordAttempt? {
        AttemptSource(log, r);
      }
      forall i | 0 <= i < |log.versions| && SameWork(log.versions[i], d)
        ensures log.versions[i].current.value.attempts <= d.current.value.attempts
        ensures NextBase(log, r, last) <= i ==> d.current.value.attempts <= log.versions[i].current.value.attempts + 1
      {
        CounterMoves(log, r, d, last, i);
      }
      assert Serve(log, r).versions == log.versions + [d];
  }
}
