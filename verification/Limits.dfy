/** The decisions of the two controllers that look at all compositions: the concurrency limiter and
    the rollout controller. */
module Limits {
  import opened Api
  import opened Lifecycle

  type Id = nat

  datatype Entry = Entry(id: Id, comp: Composition)

  function CountIf(list: seq<Entry>, p: Composition -> bool): nat {
    if list == [] then 0
    else CountIf(list[..|list| - 1], p) + if p(list[|list| - 1].comp) then 1 else 0
  }

  // ---------- Concurrency limiter ----------

  predicate AwaitsSlot(c: Composition) {
    c.current.Some? && InProgress(c.current.value) && c.current.value.uuid == NO_UUID
  }

  /** Counts the active syntheses and collects the pending ones. */
  method CountSyntheses(list: seq<Entry>) returns (active: nat, pending: seq<Entry>)
    ensures active == CountIf(list, Active)
    ensures forall e :: e in pending <==> e in list && AwaitsSlot(e.comp)
  {
    active, pending := 0, [];
    for i := 0 to |list|
      invariant active == CountIf(list[..i], Active)
      invariant forall e :: e in pending <==> e in list[..i] && AwaitsSlot(e.comp)
    {
      assert list[..i + 1][..i] == list[..i];
      var current := list[i].comp.current;
      if current.None? || current.value.synthesized.Some? {
        continue;
      }
      if current.value.uuid == NO_UUID {
        pending := pending + [list[i]];
      } else {
        active := active + 1;
      }
    }
    assert list[..|list|] == list;
  }

  /** When the limiter may dispatch `e`. */
  predicate MayDispatch(list: seq<Entry>, limit: nat, e: Entry) {
    CountIf(list, Active) < limit && e in list && AwaitsSlot(e.comp)
  }

  /** `choice` stands for the random pick among the pending ones. */
  method DecideDispatch(list: seq<Entry>, limit: nat, choice: nat) returns (next: Option<Entry>)
    ensures next.Some? ==> MayDispatch(list, limit, next.value)
    ensures next.None? ==> forall e :: !MayDispatch(list, limit, e)
  {
    var active, pending := CountSyntheses(list);
    if active >= limit || |pending| == 0 {
      return None;
    }
    assert pending[choice % |pending|] in pending;
    next := Some(pending[choice % |pending|]);
  }

  // ---------- Rollout ----------

  /** A deferred synthesis that still blocks the rollout. */
  predicate InFlight(c: Composition) {
    c.current.Some? && c.current.value.deferred && InProgress(c.current.value) && c.current.value.attempts < 2
  }

  /** A deferred synthesis of this composition finished less than one cooldown ago. */
  predicate Cooling(c: Composition, now: Time, cooldown: nat) {
    c.current.Some? && c.current.value.deferred && c.current.value.synthesized.Some? && now < c.current.value.synthesized.value + cooldown
  }

  predicate Cancellable(c: Composition) {
    c.pending.Some? && c.ignoreSideEffects
  }

  predicate Eligible(c: Composition) {
    c.pending.Some? && c.current.Some?
  }

  /** The guard against stale reads of the chosen composition. */
  predicate TooSoon(c: Composition, now: Time, cooldown: nat) {
    Eligible(c) && c.current.value.deferred && now < c.pending.value + cooldown
  }

  predicate Calm(list: seq<Entry>, now: Time, cooldown: nat) {
    forall e <- list :: !InFlight(e.comp) && !Cooling(e.comp, now, cooldown)
  }

  predicate Earliest(list: seq<Entry>, e: Entry) {
    e in list && Eligible(e.comp) && forall f <- list :: Eligible(f.comp) ==> e.comp.pending.value <= f.comp.pending.value
  }

  /** When the rollout controller may resynthesize `e`. */
  predicate MayRoll(list: seq<Entry>, now: Time, cooldown: nat, e: Entry) {
    && Calm(list, now, cooldown)
    && (forall f <- list :: !Cancellable(f.comp))
    && Earliest(list, e)
    && !TooSoon(e.comp, now, cooldown)
  }

  datatype Rollout = Wait | Cancel(entry: Entry) | Fire(entry: Entry) | Idle

  /** The sort key: no pending resynthesis counts as the zero time. */
  function PendingKey(e: Entry): int {
    if e.comp.pending.None? then -1 else e.comp.pending.value
  }

  predicate SortedByPending(list: seq<Entry>) {
    forall i, j :: 0 <= i < j < |list| ==> PendingKey(list[i]) <= PendingKey(list[j])
  }

  function InsertByPending(e: Entry, list: seq<Entry>): seq<Entry> {
    if list == [] || PendingKey(e) <= PendingKey(list[0]) then [e] + list else [list[0]] + InsertByPending(e, list[1..])
  }

  /** Stands for the library sort. */
  function SortByPending(list: seq<Entry>): seq<Entry> {
    if list == [] then [] else InsertByPending(list[0], SortByPending(list[1..]))
  }

  lemma {:induction false} InsertKeepsOrder(e: Entry, list: seq<Entry>)
    requires SortedByPending(list)
    ensures SortedByPending(InsertByPending(e, list))
    ensures forall f :: f in InsertByPending(e, list) <==> f == e || f in list
  {
    if list != [] && PendingKey(e) > PendingKey(list[0]) {
      InsertKeepsOrder(e, list[1..]);
      var t := InsertByPending(e, list[1..]);
      assert list == [list[0]] + list[1..];
      forall j | 0 <= j < |t| ensures PendingKey(list[0]) <= PendingKey(t[j]) {
        assert t[j] in t;
      }
    }
  }

  lemma {:induction false} SortKeepsEntries(list: seq<Entry>)
    ensures SortedByPending(SortByPending(list))
    ensures forall f :: f in SortByPending(list) <==> f in list
  {
    if list != [] {
      SortKeepsEntries(list[1..]);
      InsertKeepsOrder(list[0], SortByPending(list[1..]));
      assert list == [list[0]] + list[1..];
    }
  }

  /** The cooldown scan: stops at a synthesis in flight, else returns the latest completion. */
  method ScanDeferred(list: seq<Entry>, ghost now: Time, ghost cooldown: nat) returns (blocked: bool, last: Option<Time>)
    ensures blocked <==> exists e <- list :: InFlight(e.comp)
    ensures !blocked ==> ((last.Some? && now < last.value + cooldown) <==> exists e <- list :: Cooling(e.comp, now, cooldown))
  {
    blocked, last := false, None;
    ghost var at := 0;
    for i := 0 to |list|
      invariant !blocked && forall j :: 0 <= j < i ==> !InFlight(list[j].comp)
      invariant last.Some? ==> 0 <= at < i && list[at].comp.current.Some? && list[at].comp.current.value.deferred && list[at].comp.current.value.synthesized == last
      invariant forall j :: 0 <= j < i ==> var s := list[j].comp.current;
                  s.Some? && s.value.deferred && s.value.synthesized.Some? ==> last.Some? && s.value.synthesized.value <= last.value
    {
      var current := list[i].comp.current;
      if current.None? || !current.value.deferred {
        continue;
      }
      if current.value.synthesized.None? && current.value.attempts < 2 {
        assert list[i] in list;
        return true, last;
      }
      if last.None? || (current.value.synthesized.Some? && last.value < current.value.synthesized.value) {
        last := current.value.synthesized;
        at := i;
      }
    }
    if last.Some? && now < last.value + cooldown {
      assert Cooling(list[at].comp, now, cooldown) && list[at] in list;
    }
  }

  method FindCancellable(list: seq<Entry>) returns (found: Option<Entry>)
    ensures found.Some? ==> found.value in list && Cancellable(found.value.comp)
    ensures found.None? ==> forall f <- list :: !Cancellable(f.comp)
  {
    for i := 0 to |list|
      invariant forall j :: 0 <= j < i ==> !Cancellable(list[j].comp)
    {
      if Cancellable(list[i].comp) {
        return Some(list[i]);
      }
    }
    found := None;
  }

  /** One round of the rollout controller. */
  method DecideRollout(list: seq<Entry>, now: Time, cooldown: nat) returns (d: Rollout)
    ensures d.Fire? ==> MayRoll(list, now, cooldown, d.entry)
    ensures d.Cancel? ==> Calm(list, now, cooldown) && d.entry in list && Cancellable(d.entry.comp)
    ensures d.Idle? ==> forall e <- list :: !Eligible(e.comp)
    ensures d.Wait? ==> !Calm(list, now, cooldown) || exists e :: Earliest(list, e) && TooSoon(e.comp, now, cooldown)
  {
    var blocked, last := ScanDeferred(list, now, cooldown);
    if blocked {
      return Wait;
    }
    if last.Some? && now < last.value + cooldown {
      return Wait;
    }
    assert Calm(list, now, cooldown);
    var cancel := FindCancellable(list);
    if cancel.Some? {
      return Cancel(cancel.value);
    }
    SortKeepsEntries(list);
    var sorted := SortByPending(list);
    for i := 0 to |sorted|
      invariant forall j :: 0 <= j < i ==> !Eligible(sorted[j].comp)
    {
      var e := sorted[i];
      if e.comp.pending.None? || e.comp.current.None? {
        continue;
      }
      assert Earliest(list, e) by {
        assert e in list;
        forall f <- list | Eligible(f.comp) ensures e.comp.pending.value <= f.comp.pending.value {
          assert f in sorted;
          var k :| 0 <= k < |sorted| && sorted[k] == f;
          assert PendingKey(e) <= PendingKey(f);
        }
      }
      if TooSoon(e.comp, now, cooldown) {
        return Wait;
      }
      return Fire(e);
    }
    d := Idle;
    forall e <- list ensures !Eligible(e.comp) {
      assert e in sorted;
    }
  }

  // ---------- The decisions, in the fields that they read ----------

  /** The limiter may dispatch exactly a listed composition that is unsynthesized and has no UUID, while
      fewer than the limit are unsynthesized and have one. */
  lemma DispatchExactly(list: seq<Entry>, limit: nat, e: Entry)
    ensures MayDispatch(list, limit, e) <==>
            && e in list && e.comp.current.Some? && e.comp.current.value.synthesized.None? && e.comp.current.value.uuid == 0
            && CountIf(list, (c: Composition) => c.current.Some? && c.current.value.synthesized.None? && c.current.value.uuid != 0) < limit
  {
    SameCount(list, Active, (c: Composition) => c.current.Some? && c.current.value.synthesized.None? && c.current.value.uuid != 0);
  }

  lemma {:induction false} SameCount(list: seq<Entry>, p: Composition -> bool, q: Composition -> bool)
    requires forall c :: p(c) <==> q(c)
    ensures CountIf(list, p) == CountIf(list, q)
  {
    if list != [] {
      SameCount(list[..|list| - 1], p, q);
    }
  }

  /** A rollout step fires exactly for the composition with the earliest pending resynthesis among those
      with a Current, when no listed composition wants its request cancelled, no deferred synthesis with fewer than two attempts is in
      progress, every completed one finished at least one cooldown ago, and the chosen one was not requested
      within the cooldown if its Current is a deferred one. */
  lemma RolloutExactly(list: seq<Entry>, now: Time, cooldown: nat, e: Entry)
    ensures MayRoll(list, now, cooldown, e) <==>
            && e in list && e.comp.pending.Some? && e.comp.current.Some?
            && (e.comp.current.value.deferred ==> e.comp.pending.value + cooldown <= now)
            && forall f <- list ::
                 && (f.comp.pending.Some? ==> !f.comp.ignoreSideEffects)
                 && (f.comp.pending.Some? && f.comp.current.Some? ==> e.comp.pending.value <= f.comp.pending.value)
                 && (f.comp.current.Some? && f.comp.current.value.deferred ==>
                       if f.comp.current.value.synthesized.Some? then f.comp.current.value.synthesized.value + cooldown <= now
                       else f.comp.current.value.attempts >= 2)
  {
  }
}
