/** Runs in which the write buffer loses the latest update: why failures must be clean, and why the worker
    must not be misled by what it read. */
module BufferRuns {
  import opened Api
  import opened StatusPatch
  import opened WriteBuffer
  import opened BufferRefinement

  const R := ManifestRef(0, 0)
  const LIVE := Wish(false, None)
  const GONE := Wish(true, None)

  lemma PutOnEmpty(u: Update)
    requires u.ref == R
    ensures Put(map[], u) == map[0 := [u]] && !Replaces(map[], u)
  {
    var none: seq<Update> := [];
    assert none + [u] == [u];
  }

  /** Several events in a row. */
  function Steps(s: State, events: seq<Event>): State {
    if events == [] then s else NextBuffer(Steps(s, events[..|events| - 1]), events[|events| - 1])
  }

  lemma {:induction false} RunSteps(events: seq<Event>, more: seq<Event>)
    ensures RunBuffer(events + more) == Steps(RunBuffer(events), more)
  {
    if more == [] {
      assert events + more == events;
    } else {
      var n := |more| - 1;
      RunSteps(events, more[..n]);
      RunSnoc(events + more[..n], more[n]);
      assert events + more[..n] + [more[n]] == events + more;
    }
  }

  lemma ThreeSteps(s: State, events: seq<Event>)
    requires |events| == 3
    ensures Steps(s, events) == NextBuffer(NextBuffer(NextBuffer(s, events[0]), events[1]), events[2])
  {
    assert events[..2][..1] == events[..1] && events[..1][..0] == [];
    assert Steps(s, events[..1]) == NextBuffer(s, events[0]);
    assert Steps(s, events[..2]) == NextBuffer(NextBuffer(s, events[0]), events[1]);
  }

  // ---------- A stale read ----------

  /** Nothing is buffered, queued or being processed. */
  ghost predicate Quiet(s: State) {
    s.buffer == map[] && s.worker.Idle? && s.queue == Queue([], {}, {}, s.queue.delayed) && s.history != []
  }

  function Taking(wish: Wish): seq<Event> {
    [PatchStatusAsync(R, wish), GetItem, Take]
  }

  function Sent(read: nat): seq<Event> {
    [SendSucceeds(read), Requeue(1), DoneItem]
  }

  /** The worker has just taken this update, and nothing else is there. */
  function Holding(s: State, u: Update): State {
    s.(buffer := map[], queue := Queue([], {}, {0}, s.queue.delayed), worker := Sending(0, [u]), accepted := s.accepted + [u])
  }

  /** A producer's update is taken at once. */
  lemma TakeAtOnce(s: State, wish: Wish)
    requires Quiet(s)
    ensures Steps(s, Taking(wish)) == Holding(s, Update(R, |s.accepted|, wish))
  {
    ThreeSteps(s, Taking(wish));
    var u := Update(R, |s.accepted|, wish);
    PutOnEmpty(u);
    var keys: seq<Key> := [];
    assert keys + [0] == [0];
    var s1 := NextBuffer(s, PatchStatusAsync(R, wish));
    assert s1.queue == Queue([0], {0}, {}, s.queue.delayed);
    var s2 := NextBuffer(s1, GetItem);
    assert s2.queue == Queue([], {}, {0}, s.queue.delayed);
    assert s2.buffer - {0} == map[];
  }

  /** What one round does to the accepted update `u`. */
  ghost predicate Rounded(s: State, t: State, u: Update, read: nat)
    requires read < |s.history|
  {
    && Quiet(t) && t.accepted == s.accepted + [u] && t.dropped == s.dropped
    && t.history == s.history + [ApplyBatch(s.history[read], Now(s), [u])]
    && (Skips(s.history[read], u) ==> t.found == s.found + {u.id})
  }

  /** The batch is sent, and the worker rests. */
  lemma SendAtOnce(s: State, u: Update, read: nat)
    requires read < |s.history|
    ensures Rounded(s, Steps(Holding(s, u), Sent(read)), u, read)
  {
    ThreeSteps(Holding(s, u), Sent(read));
    if Skips(s.history[read], u) {
      assert [u][0] == u;
      assert SkippedIds(s.history[read], [u]) == {u.id};
    }
  }

  function Round(wish: Wish, read: nat): seq<Event> {
    Taking(wish) + Sent(read)
  }

  lemma RunRound(events: seq<Event>, wish: Wish, read: nat)
    requires Quiet(RunBuffer(events)) && read < |RunBuffer(events).history|
    ensures Rounded(RunBuffer(events), RunBuffer(events + Round(wish, read)), Update(R, |RunBuffer(events).accepted|, wish), read)
  {
    var s := RunBuffer(events);
    TakeAtOnce(s, wish);
    SendAtOnce(s, Update(R, |s.accepted|, wish), read);
    RunSteps(events, Taking(wish));
    RunSteps(events + Taking(wish), Sent(read));
    assert events + Taking(wish) + Sent(read) == events + Round(wish, read);
  }

  lemma ApplyOne(seen: Store, store: Store, u: Update)
    ensures ApplyBatch(seen, store, [u]) == if Skips(seen, u) then store else store[u.ref := Record(Wanted(u.wish), u.id)]
  {
    assert [u][..0] == [];
  }

  lemma {:induction false} NoPutBackIsClean(events: seq<Event>)
    requires forall i :: 0 <= i < |events| ==> !events[i].PutBack?
    ensures CleanRun(events)
  {
    if events != [] {
      NoPutBackIsClean(events[..|events| - 1]);
    }
  }

  /** An update is stored, then one that reverses it, then the first wish again; but the last is processed
      on the version before the second. */
  function StaleRead(): seq<Event> {
    Round(LIVE, 0) + Round(GONE, 1) + Round(LIVE, 1)
  }

  lemma AfterTwoRounds()
    ensures var s := RunBuffer(Round(LIVE, 0) + Round(GONE, 1));
            && Quiet(s) && |s.accepted| == 2 && s.dropped == {} && |s.history| == 3
            && s.history[1] == map[R := Record(Wanted(LIVE), 0)] && Now(s) == map[R := Record(Wanted(GONE), 1)]
  {
    RunRound([], LIVE, 0);
    assert [] + Round(LIVE, 0) == Round(LIVE, 0);
    ApplyOne(map[], map[], Update(R, 0, LIVE));
    var s := RunBuffer(Round(LIVE, 0));
    RunRound(Round(LIVE, 0), GONE, 1);
    ApplyOne(s.history[1], Now(s), Update(R, 1, GONE));
  }

  /** No send fails, and yet the latest update is neither stored nor waiting: the worker found its wish on
      record in a version that is no longer the newest. */
  lemma {:induction false} StaleReadLosesUpdate()
    ensures CleanRun(StaleRead())
    ensures var s := RunBuffer(StaleRead());
            && LatestFor(s.accepted, R) == Some(Update(R, 2, LIVE)) && Pending(s, R) == None && s.dropped == {}
            && 2 in s.found && StoredFor(Now(s), R) == Some(Record(Wanted(GONE), 1)) && !UpToDate(s, R)
  {
    var a := Round(LIVE, 0) + Round(GONE, 1);
    AfterTwoRounds();
    RunRound(a, LIVE, 1);
    ApplyOne(RunBuffer(a).history[1], Now(RunBuffer(a)), Update(R, 2, LIVE));
    NoPutBackIsClean(StaleRead());
  }

  // ---------- An unclean failure ----------

  /** An update arrives while an older one for the same manifest fails to be sent. */
  function FailingHalf(): seq<Event> {
    [PatchStatusAsync(R, LIVE), GetItem, Take, PatchStatusAsync(R, GONE), SendFails(false, 0), PutBack, Requeue(1), DoneItem]
  }

  function SendingHalf(): seq<Event> {
    [PatchStatusAsync(R, LIVE), GetItem, Take, SendSucceeds(0)]
  }

  const FIRST := Update(R, 0, LIVE)
  const SECOND := Update(R, 1, GONE)
  const THIRD := Update(R, 2, LIVE)

  const HELD := EMPTY.(queue := Queue([], {}, {0}, {}), worker := Sending(0, [FIRST]), accepted := [FIRST])

  const ARRIVED := HELD.(buffer := map[0 := [SECOND]], queue := Queue([], {0}, {0}, {}), accepted := [FIRST, SECOND])

  const RETURNED := ARRIVED.(buffer := map[0 := [FIRST, SECOND]], worker := Requeueing(0))

  lemma AfterFirstTake()
    ensures RunBuffer(FailingHalf()[..3]) == HELD
  {
    var e := FailingHalf();
    RunSteps([], Taking(LIVE));
    assert [] + Taking(LIVE) == e[..3];
    TakeAtOnce(EMPTY, LIVE);
    var none: seq<Update> := [];
    assert none + [FIRST] == [FIRST];
  }

  lemma SecondArrives()
    ensures NextBuffer(HELD, PatchStatusAsync(R, GONE)) == ARRIVED
  {
    PutOnEmpty(SECOND);
    assert [FIRST] + [SECOND] == [FIRST, SECOND];
  }

  lemma FirstReturns()
    ensures NextBuffer(NextBuffer(ARRIVED, SendFails(false, 0)), PutBack) == RETURNED
  {
    assert [FIRST] + [SECOND] == [FIRST, SECOND];
  }

  lemma AfterPutBack()
    ensures RunBuffer(FailingHalf()[..6]) == RETURNED
  {
    var e := FailingHalf();
    AfterFirstTake();
    RunSteps(e[..3], e[3..6]);
    ThreeSteps(HELD, e[3..6]);
    SecondArrives();
    FirstReturns();
    assert e[..3] + e[3..6] == e[..6];
  }

  lemma AfterFailingHalf()
    ensures RunBuffer(FailingHalf()) ==
            EMPTY.(buffer := map[0 := [FIRST, SECOND]], queue := Queue([0], {0}, {}, {0}), accepted := [FIRST, SECOND])
  {
    var e := FailingHalf();
    AfterPutBack();
    assert e[..7] == e[..6] + [e[6]] && e == e[..7] + [e[7]];
    RunSnoc(e[..6], e[6]);
    RunSnoc(e[..7], e[7]);
  }

  lemma AfterThird()
    ensures var s := RunBuffer(FailingHalf() + SendingHalf()[..3]);
            && s.worker == Sending(0, [THIRD, SECOND]) && s.buffer == map[] && s.dropped == {}
            && s.accepted == [FIRST, SECOND, THIRD] && s.history == [map[]]
  {
    var a, e := FailingHalf(), SendingHalf();
    AfterFailingHalf();
    RunSteps(a, e[..3]);
    ThreeSteps(RunBuffer(a), e[..3]);
    assert [FIRST, SECOND][0 := THIRD] == [THIRD, SECOND];
    assert [FIRST, SECOND] + [THIRD] == [FIRST, SECOND, THIRD];
  }

  lemma ApplyTwo(u: Update, v: Update)
    requires u.ref == R && v.ref == R
    ensures ApplyBatch(map[], map[], [u, v]) == map[R := Record(Wanted(v.wish), v.id)]
  {
    assert [u, v][..1] == [u];
    ApplyOne(map[], map[], u);
  }

  /** Then the newest update is sent together with an older one that overwrites it. */
  lemma {:induction false} UncleanFailureStoresStaleUpdate()
    ensures var s := RunBuffer(FailingHalf() + SendingHalf());
            && LatestFor(s.accepted, R) == Some(THIRD) && Pending(s, R) == None && s.dropped == {}
            && StoredFor(Now(s), R) == Some(Record(Wanted(GONE), 1)) && !UpToDate(s, R)
  {
    var a, e := FailingHalf(), SendingHalf();
    AfterThird();
    RunSnoc(a + e[..3], e[3]);
    assert a + e[..3] + [e[3]] == a + e;
    ApplyTwo(THIRD, SECOND);
  }
}
