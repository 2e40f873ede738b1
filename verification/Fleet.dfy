/** All compositions together, with one concurrency limiter and one rollout controller. Each of the
    two reads a list whose entries may be stale, but not older than its own last write; between that
    read and its write every other controller may act on every composition. */
module Fleet {
  import opened Api
  import opened Lifecycle
  import opened History
  import opened Limits
  import opened Pacing
  import opened Sets

  /** What a controller remembers: for each composition the index of the version that its own last
      write created (0 if none), and the choice it is about to carry out. */
  datatype Control = Control(marks: map<Id, nat>, chosen: Option<Choice>)

  datatype Choice = Choice(id: Id, base: nat)

  datatype State = State(logs: map<Id, Log>, gone: set<Id>, limiter: Control, roller: Control)

  datatype Seen = Seen(id: Id, version: nat)

  datatype Event =
    | Create(id: Id, comp: Composition)
    | Remove(id: Id)
    | Other(id: Id, request: Request)
    | ListForDispatch(view: seq<Seen>, pick: nat)
    | SendDispatch
    | ListForRollout(view: seq<Seen>, now: Time, pick: nat)
    | SendSwap(now: Time)

  datatype Settings = Settings(limit: nat, cooldown: nat)

  /** The view names existing compositions, each once, and reflects the controller's own writes. */
  predicate ValidView(f: State, ctl: Control, view: seq<Seen>) {
    && (forall i :: 0 <= i < |view| ==> view[i].id in f.logs && view[i].version < |f.logs[view[i].id].versions|)
    && (forall i, j :: 0 <= i < j < |view| ==> view[i].id != view[j].id)
    && (forall id <- f.logs :: id !in f.gone && id in ctl.marks && ctl.marks[id] > 0 ==>
          exists i :: 0 <= i < |view| && view[i].id == id && view[i].version >= ctl.marks[id])
  }

  function Entries(f: State, ctl: Control, view: seq<Seen>): (list: seq<Entry>)
    requires ValidView(f, ctl, view)
    ensures |list| == |view|
    ensures forall i :: 0 <= i < |view| ==> list[i] == Entry(view[i].id, f.logs[view[i].id].versions[view[i].version])
  {
    seq(|view|, i requires 0 <= i < |view| => Entry(view[i].id, f.logs[view[i].id].versions[view[i].version]))
  }

  predicate Ok(f: State) {
    forall id <- f.logs :: f.logs[id].versions != []
  }

  /** Sends the chosen write; if the server accepts it, the mark moves to the version it created. */
  function Send(f: State, ctl: Control, a: Action): (State, Control)
    requires Ok(f)
  {
    if ctl.chosen.None? || ctl.chosen.value.id !in f.logs || ctl.chosen.value.id in f.gone then (f, ctl.(chosen := None))
    else
      var id := ctl.chosen.value.id;
      var log := Serve(f.logs[id], Request(ctl.chosen.value.base, a));
      (f.(logs := f.logs[id := log]),
       Control(if log == f.logs[id] then ctl.marks else ctl.marks[id := |log.versions| - 1], None))
  }

  function NextFleet(f: State, ev: Event, k: Settings): State
    requires Ok(f)
  {
    match ev
    case Create(id, comp) =>
      if id in f.logs || !Initial(comp) then f
      else State(f.logs[id := Start(comp)], f.gone,
                 f.limiter.(marks := f.limiter.marks[id := 0]), f.roller.(marks := f.roller.marks[id := 0]))
    case Remove(id) =>
      if id in f.logs && Newest(f.logs[id]).deleting && !Newest(f.logs[id]).finalizer then f.(gone := f.gone + {id}) else f
    case Other(id, r) =>
      if id in f.logs && !r.action.Dispatch? && !r.action.RolloutSwap? then f.(logs := f.logs[id := Serve(f.logs[id], r)]) else f
    case ListForDispatch(view, pick) =>
      if && f.limiter.chosen.None? && ValidView(f, f.limiter, view) && pick < |view|
         && MayDispatch(Entries(f, f.limiter, view), k.limit, Entries(f, f.limiter, view)[pick])
      then f.(limiter := f.limiter.(chosen := Some(Choice(view[pick].id, view[pick].version)))) else f
    case SendDispatch =>
      var (g, ctl) := Send(f, f.limiter, Dispatch);
      g.(limiter := ctl)
    case ListForRollout(view, now, pick) =>
      if && f.roller.chosen.None? && ValidView(f, f.roller, view) && pick < |view|
         && MayRoll(Entries(f, f.roller, view), now, k.cooldown, Entries(f, f.roller, view)[pick])
      then f.(roller := f.roller.(chosen := Some(Choice(view[pick].id, view[pick].version)))) else f
    case SendSwap(now) =>
      var (g, ctl) := Send(f, f.roller, RolloutSwap(now));
      g.(roller := ctl)
  }

  lemma NextOk(f: State, ev: Event, k: Settings)
    requires Ok(f)
    ensures Ok(NextFleet(f, ev, k))
  {
  }

  function RunFleet(events: seq<Event>, k: Settings): (f: State)
    ensures Ok(f)
  {
    if events == [] then State(map[], {}, Control(map[], None), Control(map[], None))
    else
      var f := RunFleet(events[..|events| - 1], k);
      NextOk(f, events[|events| - 1], k);
      NextFleet(f, events[|events| - 1], k)
  }

  // ---------- One controller that alone raises a property ----------

  /** The compositions that have the property now. */
  function Having(f: State, p: Composition -> bool): set<Id>
    requires Ok(f)
  {
    set id | id in f.logs && id !in f.gone && p(Newest(f.logs[id]))
  }

  /** The property holds now only if it has held since the controller's last write. */
  ghost predicate Tracked(log: Log, mark: nat, p: Composition -> bool) {
    && mark < |log.versions|
    && (p(Newest(log)) ==> mark > 0 && forall i :: mark <= i < |log.versions| ==> p(log.versions[i]))
  }

  ghost predicate Controlled(f: State, ctl: Control, p: Composition -> bool, bound: nat) {
    && Ok(f)
    && (forall id <- f.logs :: id in ctl.marks && Tracked(f.logs[id], ctl.marks[id], p))
    && |Having(f, p)| + (if ctl.chosen.Some? then 1 else 0) <= bound
  }

  /** At most one more version, which has the property only if the one before had it. */
  ghost predicate Lowers(log: Log, log': Log, p: Composition -> bool) {
    && log.versions != []
    && (log'.versions == log.versions ||
        exists d :: log'.versions == log.versions + [d] && (p(d) ==> p(Newest(log))))
  }

  lemma LoweringIsTracked(log: Log, log': Log, mark: nat, p: Composition -> bool)
    requires Tracked(log, mark, p) && Lowers(log, log', p)
    ensures Tracked(log', mark, p) && (p(Newest(log')) ==> p(Newest(log)))
  {
  }

  /** Others' writes on one composition. */
  lemma OtherKeepsControl(f: State, g: State, id: Id, ctl: Control, p: Composition -> bool, bound: nat)
    requires Controlled(f, ctl, p, bound) && id in f.logs && g.gone == f.gone && id in g.logs
    requires g.logs == f.logs[id := g.logs[id]] && Lowers(f.logs[id], g.logs[id], p)
    ensures Controlled(g, ctl, p, bound)
  {
    LoweringIsTracked(f.logs[id], g.logs[id], ctl.marks[id], p);
    SubsetSize(Having(g, p), Having(f, p));
  }

  lemma {:induction false} CountIsSize(list: seq<Entry>, p: Composition -> bool)
    requires forall i, j :: 0 <= i < j < |list| ==> list[i].id != list[j].id
    ensures |(set e | e in list && p(e.comp) :: e.id)| == CountIf(list, p)
  {
    var ids := set e | e in list && p(e.comp) :: e.id;
    if list == [] {
      assert ids == {};
    } else {
      var n := |list| - 1;
      CountIsSize(list[..n], p);
      var before := set e | e in list[..n] && p(e.comp) :: e.id;
      assert list == list[..n] + [list[n]];
      assert list[n].id !in before;
      if p(list[n].comp) {
        assert ids == before + {list[n].id};
      } else {
        assert ids == before;
      }
    }
  }

  /** A list that reflects the controller's own writes shows every composition that has the property. */
  lemma ListShowsAll(f: State, ctl: Control, view: seq<Seen>, p: Composition -> bool, bound: nat)
    requires Controlled(f, ctl, p, bound) && ValidView(f, ctl, view)
    ensures |Having(f, p)| <= CountIf(Entries(f, ctl, view), p)
  {
    var list := Entries(f, ctl, view);
    CountIsSize(list, p);
    var shown := set e | e in list && p(e.comp) :: e.id;
    forall id | id in Having(f, p) ensures id in shown {
      assert Tracked(f.logs[id], ctl.marks[id], p);
      var i :| 0 <= i < |view| && view[i].id == id && view[i].version >= ctl.marks[id];
      assert list[i] in list && p(list[i].comp) && list[i].id == id;
    }
    SubsetSize(Having(f, p), shown);
  }

  /** The controller's own write adds at most the composition that it chose. */
  lemma SendKeepsControl(f: State, ctl: Control, a: Action, p: Composition -> bool, bound: nat)
    requires Controlled(f, ctl, p, bound)
    ensures var (g, ctl') := Send(f, ctl, a); Controlled(g, ctl', p, bound)
  {
    var (g, ctl') := Send(f, ctl, a);
    if g.logs == f.logs {
      assert Having(g, p) == Having(f, p);
    } else {
      var id := ctl.chosen.value.id;
      var log, log' := f.logs[id], g.logs[id];
      assert log == log' ==> g.logs == f.logs;
      assert |log'.versions| == |log.versions| + 1;
      assert Tracked(log', |log'.versions| - 1, p);
      SubsetSize(Having(g, p), Having(f, p) + {id});
    }
  }

  lemma CreateKeepsControl(f: State, id: Id, comp: Composition, ctl: Control, p: Composition -> bool, bound: nat)
    requires Controlled(f, ctl, p, bound) && id !in f.logs && !p(comp)
    ensures Controlled(f.(logs := f.logs[id := Start(comp)]), ctl.(marks := ctl.marks[id := 0]), p, bound)
  {
    var g := f.(logs := f.logs[id := Start(comp)]);
    SubsetSize(Having(g, p), Having(f, p));
  }

  lemma RemoveKeepsControl(f: State, id: Id, ctl: Control, p: Composition -> bool, bound: nat)
    requires Controlled(f, ctl, p, bound)
    ensures Controlled(f.(gone := f.gone + {id}), ctl, p, bound)
  {
    SubsetSize(Having(f.(gone := f.gone + {id}), p), Having(f, p));
  }

  lemma FrameControl(f: State, g: State, ctl: Control, p: Composition -> bool, bound: nat)
    requires Controlled(f, ctl, p, bound) && g.logs == f.logs && g.gone == f.gone
    ensures Controlled(g, ctl, p, bound)
  {
    assert Having(g, p) == Having(f, p);
  }

  // ---------- What each write does ----------

  /** No write but a dispatch makes a synthesis active. */
  lemma OnlyDispatchActivates(c: Composition, a: Action, d: Composition, issued: Uuid)
    requires Good(c, issued) && Rewrite(c, a, issued + 1) == Some(d) && !a.Dispatch? && Active(d)
    ensures Active(c)
  {
  }

  /** The recorded attempt takes a deferred synthesis back below two attempts. */
  predicate Reopens(c: Composition, a: Action) {
    && a.RecordAttempt? && MayRecordAttempt(c, a.uuid)
    && c.current.value.deferred && c.current.value.attempts >= 2 && a.attempts < 2
  }

  /** What puts a deferred synthesis in flight: a rollout swap, an attempt that reopens it, and nothing
      else. */
  lemma FlightStartsExactly(c: Composition, a: Action, d: Composition, issued: Uuid)
    requires Good(c, issued) && Rewrite(c, a, issued + 1) == Some(d) && !InFlight(c)
    ensures InFlight(d) <==> a.RolloutSwap? || Reopens(c, a)
  {
  }

  lemma ServeLowersActive(log: Log, r: Request)
    requires Inv(log) && !r.action.Dispatch?
    ensures Lowers(log, Serve(log, r), Active)
  {
    match Outcome(log, r)
    case None =>
    case Some(d) =>
      assert Good(Newest(log), log.issued);
      NextRewrites(Newest(log), r.action, log.issued + 1);
      if Active(d) { OnlyDispatchActivates(Newest(log), r.action, d, log.issued); }
      assert Serve(log, r).versions == log.versions + [d];
  }

  lemma ServeLowersInFlight(log: Log, r: Request)
    requires Inv(log) && !r.action.RolloutSwap? && (Outcome(log, r).Some? ==> !Reopens(Newest(log), r.action))
    ensures Lowers(log, Serve(log, r), InFlight)
  {
    match Outcome(log, r)
    case None =>
    case Some(d) =>
      assert Good(Newest(log), log.issued);
      NextRewrites(Newest(log), r.action, log.issued + 1);
      if !InFlight(Newest(log)) { FlightStartsExactly(Newest(log), r.action, d, log.issued); }
      assert Serve(log, r).versions == log.versions + [d];
  }

  ghost predicate LogsOk(f: State) {
    forall id <- f.logs :: Inv(f.logs[id])
  }

  lemma NextKeepsLogs(f: State, ev: Event, k: Settings)
    requires Ok(f) && LogsOk(f)
    ensures LogsOk(NextFleet(f, ev, k))
  {
    match ev
    case Create(id, comp) => if Initial(comp) { RunKeepsInv(comp, []); }
    case Other(id, r) => if id in f.logs { ServeKeepsInv(f.logs[id], r); }
    case SendDispatch =>
      if f.limiter.chosen.Some? && f.limiter.chosen.value.id in f.logs {
        ServeKeepsInv(f.logs[f.limiter.chosen.value.id], Request(f.limiter.chosen.value.base, Dispatch));
      }
    case SendSwap(now) =>
      if f.roller.chosen.Some? && f.roller.chosen.value.id in f.logs {
        ServeKeepsInv(f.logs[f.roller.chosen.value.id], Request(f.roller.chosen.value.base, RolloutSwap(now)));
      }
    case Remove(_) =>
    case ListForDispatch(_, _) =>
    case ListForRollout(_, _, _) =>
  }

  lemma {:induction false} RunKeepsLogs(events: seq<Event>, k: Settings)
    ensures LogsOk(RunFleet(events, k))
  {
    if events != [] {
      RunKeepsLogs(events[..|events| - 1], k);
      NextKeepsLogs(RunFleet(events[..|events| - 1], k), events[|events| - 1], k);
    }
  }

  /** The other controller's write, seen from this one. */
  lemma ForeignSend(f: State, other: Control, a: Action, ctl: Control, p: Composition -> bool, bound: nat)
    requires Controlled(f, ctl, p, bound)
    requires forall id <- f.logs, base :: Lowers(f.logs[id], Serve(f.logs[id], Request(base, a)), p)
    ensures Controlled(Send(f, other, a).0, ctl, p, bound)
  {
    var g := Send(f, other, a).0;
    if g != f {
      var id := other.chosen.value.id;
      assert Lowers(f.logs[id], g.logs[id], p);
      OtherKeepsControl(f, g, id, ctl, p, bound);
    }
  }

  // ---------- Concurrency limit ----------

  lemma OwnListKeepsLimit(f: State, view: seq<Seen>, pick: nat, k: Settings)
    requires Controlled(f, f.limiter, Active, k.limit)
    ensures var g := NextFleet(f, ListForDispatch(view, pick), k); Controlled(g, g.limiter, Active, k.limit)
  {
    var g := NextFleet(f, ListForDispatch(view, pick), k);
    if g != f {
      ListShowsAll(f, f.limiter, view, Active, k.limit);
      assert Having(g, Active) == Having(f, Active);
    }
  }

  lemma SwapKeepsLimit(f: State, now: Time, k: Settings)
    requires LogsOk(f) && Controlled(f, f.limiter, Active, k.limit)
    ensures Controlled(Send(f, f.roller, RolloutSwap(now)).0, f.limiter, Active, k.limit)
  {
    forall id <- f.logs, base ensures Lowers(f.logs[id], Serve(f.logs[id], Request(base, RolloutSwap(now))), Active) {
      ServeLowersActive(f.logs[id], Request(base, RolloutSwap(now)));
    }
    ForeignSend(f, f.roller, RolloutSwap(now), f.limiter, Active, k.limit);
  }

  lemma CreateStepKeepsLimit(f: State, id: Id, comp: Composition, k: Settings)
    requires Controlled(f, f.limiter, Active, k.limit)
    ensures var g := NextFleet(f, Create(id, comp), k); Controlled(g, g.limiter, Active, k.limit)
  {
    var g := NextFleet(f, Create(id, comp), k);
    if g != f {
      CreateKeepsControl(f, id, comp, f.limiter, Active, k.limit);
      FrameControl(f.(logs := f.logs[id := Start(comp)]), g, g.limiter, Active, k.limit);
    }
  }

  lemma OwnDispatchKeepsLimit(f: State, k: Settings)
    requires Controlled(f, f.limiter, Active, k.limit)
    ensures var g := NextFleet(f, SendDispatch, k); Controlled(g, g.limiter, Active, k.limit)
  {
    var g := NextFleet(f, SendDispatch, k);
    SendKeepsControl(f, f.limiter, Dispatch, Active, k.limit);
    FrameControl(Send(f, f.limiter, Dispatch).0, g, g.limiter, Active, k.limit);
  }

  lemma OtherStepKeepsLimit(f: State, id: Id, r: Request, k: Settings)
    requires LogsOk(f) && Controlled(f, f.limiter, Active, k.limit)
    ensures var g := NextFleet(f, Other(id, r), k); Controlled(g, g.limiter, Active, k.limit)
  {
    if id in f.logs && !r.action.Dispatch? && !r.action.RolloutSwap? {
      ServeLowersActive(f.logs[id], r);
      OtherKeepsControl(f, NextFleet(f, Other(id, r), k), id, f.limiter, Active, k.limit);
    }
  }

  lemma ForeignListKeepsLimit(f: State, view: seq<Seen>, now: Time, pick: nat, k: Settings)
    requires Controlled(f, f.limiter, Active, k.limit)
    ensures var g := NextFleet(f, ListForRollout(view, now, pick), k); Controlled(g, g.limiter, Active, k.limit)
  {
    FrameControl(f, NextFleet(f, ListForRollout(view, now, pick), k), f.limiter, Active, k.limit);
  }

  lemma ForeignSendKeepsLimit(f: State, now: Time, k: Settings)
    requires Ok(f) && Controlled(Send(f, f.roller, RolloutSwap(now)).0, f.limiter, Active, k.limit)
    ensures var g := NextFleet(f, SendSwap(now), k); Controlled(g, g.limiter, Active, k.limit)
  {
    FrameControl(Send(f, f.roller, RolloutSwap(now)).0, NextFleet(f, SendSwap(now), k), f.limiter, Active, k.limit);
  }

  lemma NextKeepsLimit(f: State, ev: Event, k: Settings)
    requires LogsOk(f) && Controlled(f, f.limiter, Active, k.limit)
    ensures Controlled(NextFleet(f, ev, k), NextFleet(f, ev, k).limiter, Active, k.limit)
  {
    match ev
    case Create(id, comp) => CreateStepKeepsLimit(f, id, comp, k);
    case Remove(id) => RemoveKeepsControl(f, id, f.limiter, Active, k.limit);
    case Other(id, r) => OtherStepKeepsLimit(f, id, r, k);
    case ListForDispatch(view, pick) => OwnListKeepsLimit(f, view, pick, k);
    case SendDispatch => OwnDispatchKeepsLimit(f, k);
    case ListForRollout(view, now, pick) => ForeignListKeepsLimit(f, view, now, pick, k);
    case SendSwap(now) => SwapKeepsLimit(f, now, k); ForeignSendKeepsLimit(f, now, k);
  }

  lemma {:induction false} RunKeepsLimit(events: seq<Event>, k: Settings)
    ensures Controlled(RunFleet(events, k), RunFleet(events, k).limiter, Active, k.limit)
  {
    if events == [] {
      assert Having(RunFleet(events, k), Active) == {};
    } else {
      RunKeepsLimit(events[..|events| - 1], k);
      RunKeepsLogs(events[..|events| - 1], k);
      NextKeepsLimit(RunFleet(events[..|events| - 1], k), events[|events| - 1], k);
    }
  }

  /** In every run the number of dispatched and not yet synthesized compositions is within the limit. */
  lemma {:induction false} ConcurrencyLimit(events: seq<Event>, k: Settings)
    ensures |Having(RunFleet(events, k), Active)| <= k.limit
  {
    RunKeepsLimit(events, k);
  }

  // ---------- Rollout ----------

  /** No attempt that the server accepts reopens a deferred synthesis. */
  predicate Steady(f: State, ev: Event)
    requires Ok(f)
  {
    ev.Other? && ev.id in f.logs && Outcome(f.logs[ev.id], ev.request).Some? ==> !Reopens(Newest(f.logs[ev.id]), ev.request.action)
  }

  predicate SteadyRun(events: seq<Event>, k: Settings) {
    events == [] ||
    (SteadyRun(events[..|events| - 1], k) && Steady(RunFleet(events[..|events| - 1], k), events[|events| - 1]))
  }

  lemma {:induction false} CalmCountsNothing(list: seq<Entry>)
    requires forall e <- list :: !InFlight(e.comp)
    ensures CountIf(list, InFlight) == 0
  {
    if list != [] {
      CalmCountsNothing(list[..|list| - 1]);
      assert list[|list| - 1] in list;
    }
  }

  lemma OwnListKeepsRollout(f: State, view: seq<Seen>, now: Time, pick: nat, k: Settings)
    requires Controlled(f, f.roller, InFlight, 1)
    ensures var g := NextFleet(f, ListForRollout(view, now, pick), k); Controlled(g, g.roller, InFlight, 1)
  {
    var g := NextFleet(f, ListForRollout(view, now, pick), k);
    if g != f {
      ListShowsAll(f, f.roller, view, InFlight, 1);
      CalmCountsNothing(Entries(f, f.roller, view));
      assert Having(g, InFlight) == Having(f, InFlight);
    }
  }

  lemma DispatchKeepsRollout(f: State)
    requires LogsOk(f) && Controlled(f, f.roller, InFlight, 1)
    ensures Controlled(Send(f, f.limiter, Dispatch).0, f.roller, InFlight, 1)
  {
    forall id <- f.logs, base ensures Lowers(f.logs[id], Serve(f.logs[id], Request(base, Dispatch)), InFlight) {
      ServeLowersInFlight(f.logs[id], Request(base, Dispatch));
    }
    ForeignSend(f, f.limiter, Dispatch, f.roller, InFlight, 1);
  }

  lemma WriteKeepsRollout(f: State, g: State, id: Id, r: Request)
    requires LogsOk(f) && Controlled(f, f.roller, InFlight, 1)
    requires id in f.logs && !r.action.RolloutSwap? && (Outcome(f.logs[id], r).Some? ==> !Reopens(Newest(f.logs[id]), r.action))
    requires g == f.(logs := f.logs[id := Serve(f.logs[id], r)])
    ensures Controlled(g, f.roller, InFlight, 1)
  {
    ServeLowersInFlight(f.logs[id], r);
    OtherKeepsControl(f, g, id, f.roller, InFlight, 1);
  }

  lemma CreateStepKeepsRollout(f: State, id: Id, comp: Composition, k: Settings)
    requires Controlled(f, f.roller, InFlight, 1)
    ensures var g := NextFleet(f, Create(id, comp), k); Controlled(g, g.roller, InFlight, 1)
  {
    var g := NextFleet(f, Create(id, comp), k);
    if g != f {
      CreateKeepsControl(f, id, comp, f.roller, InFlight, 1);
      FrameControl(f.(logs := f.logs[id := Start(comp)]), g, g.roller, InFlight, 1);
    }
  }

  lemma OwnSwapKeepsRollout(f: State, now: Time, k: Settings)
    requires Controlled(f, f.roller, InFlight, 1)
    ensures var g := NextFleet(f, SendSwap(now), k); Controlled(g, g.roller, InFlight, 1)
  {
    var g := NextFleet(f, SendSwap(now), k);
    SendKeepsControl(f, f.roller, RolloutSwap(now), InFlight, 1);
    FrameControl(Send(f, f.roller, RolloutSwap(now)).0, g, g.roller, InFlight, 1);
  }

  lemma OtherStepKeepsRollout(f: State, id: Id, r: Request, k: Settings)
    requires LogsOk(f) && Controlled(f, f.roller, InFlight, 1) && Steady(f, Other(id, r))
    ensures var g := NextFleet(f, Other(id, r), k); Controlled(g, g.roller, InFlight, 1)
  {
    if id in f.logs && !r.action.Dispatch? && !r.action.RolloutSwap? {
      WriteKeepsRollout(f, NextFleet(f, Other(id, r), k), id, r);
    }
  }

  lemma ForeignListKeepsRollout(f: State, view: seq<Seen>, pick: nat, k: Settings)
    requires Controlled(f, f.roller, InFlight, 1)
    ensures var g := NextFleet(f, ListForDispatch(view, pick), k); Controlled(g, g.roller, InFlight, 1)
  {
    FrameControl(f, NextFleet(f, ListForDispatch(view, pick), k), f.roller, InFlight, 1);
  }

  lemma ForeignSendKeepsRollout(f: State, k: Settings)
    requires Ok(f) && Controlled(Send(f, f.limiter, Dispatch).0, f.roller, InFlight, 1)
    ensures var g := NextFleet(f, SendDispatch, k); Controlled(g, g.roller, InFlight, 1)
  {
    FrameControl(Send(f, f.limiter, Dispatch).0, NextFleet(f, SendDispatch, k), f.roller, InFlight, 1);
  }

  lemma NextKeepsRollout(f: State, ev: Event, k: Settings)
    requires LogsOk(f) && Controlled(f, f.roller, InFlight, 1) && Steady(f, ev)
    ensures Controlled(NextFleet(f, ev, k), NextFleet(f, ev, k).roller, InFlight, 1)
  {
    match ev
    case Create(id, comp) => CreateStepKeepsRollout(f, id, comp, k);
    case Remove(id) => RemoveKeepsControl(f, id, f.roller, InFlight, 1);
    case Other(id, r) => OtherStepKeepsRollout(f, id, r, k);
    case ListForRollout(view, now, pick) => OwnListKeepsRollout(f, view, now, pick, k);
    case SendSwap(now) => OwnSwapKeepsRollout(f, now, k);
    case ListForDispatch(view, pick) => ForeignListKeepsRollout(f, view, pick, k);
    case SendDispatch => DispatchKeepsRollout(f); ForeignSendKeepsRollout(f, k);
  }

  lemma {:induction false} RunKeepsRollout(events: seq<Event>, k: Settings)
    requires SteadyRun(events, k)
    ensures Controlled(RunFleet(events, k), RunFleet(events, k).roller, InFlight, 1)
  {
    if events == [] {
      assert Having(RunFleet(events, k), InFlight) == {};
    } else {
      RunKeepsRollout(events[..|events| - 1], k);
      RunKeepsLogs(events[..|events| - 1], k);
      NextKeepsRollout(RunFleet(events[..|events| - 1], k), events[|events| - 1], k);
    }
  }

  /** In every such run at most one deferred synthesis with fewer than two attempts is in progress. */
  lemma {:induction false} OneDeferredAtATime(events: seq<Event>, k: Settings)
    requires SteadyRun(events, k)
    ensures |Having(RunFleet(events, k), InFlight)| <= 1
  {
    RunKeepsRollout(events, k);
  }

  // ---------- While the worker's reads do not go back ----------

  /** The version behind the last attempt recorded for a composition. */
  function LastBase(events: seq<Event>, k: Settings, id: Id): nat {
    if events == [] then 0
    else
      var before, ev := events[..|events| - 1], events[|events| - 1];
      var f, last := RunFleet(before, k), LastBase(before, k, id);
      if ev.Other? && ev.id == id && id in f.logs then NextBase(f.logs[id], ev.request, last) else last
  }

  /** The worker that records attempts never reads an older version of a composition than before. */
  predicate OrderlyFleet(events: seq<Event>, k: Settings) {
    events == [] ||
    var before, ev := events[..|events| - 1], events[|events| - 1];
    && OrderlyFleet(before, k)
    && (ev.Other? && ev.id in RunFleet(before, k).logs ==>
          ReadsForward(RunFleet(before, k).logs[ev.id], ev.request, LastBase(before, k, ev.id)))
  }

  /** The write behind a step of one composition's log. */
  lemma LogMoves(f: State, ev: Event, k: Settings, id: Id) returns (r: Request)
    requires Ok(f) && id in f.logs
    ensures id in NextFleet(f, ev, k).logs
    ensures NextFleet(f, ev, k).logs[id] == f.logs[id] || NextFleet(f, ev, k).logs[id] == Serve(f.logs[id], r)
    ensures NextFleet(f, ev, k).logs[id] != f.logs[id] ==>
              if ev.Other? && ev.id == id then r == ev.request else !r.action.RecordAttempt?
  {
    r := match ev
      case Other(_, request) => request
      case SendDispatch => Request(if f.limiter.chosen.Some? then f.limiter.chosen.value.base else 0, Dispatch)
      case SendSwap(now) => Request(if f.roller.chosen.Some? then f.roller.chosen.value.base else 0, RolloutSwap(now))
      case _ => Request(0, Dispatch);
  }

  lemma NextKeepsPaced(f: State, ev: Event, k: Settings, id: Id, last: nat)
    requires Ok(f) && LogsOk(f) && id in f.logs && Paced(f.logs[id], last)
    requires ev.Other? && ev.id == id ==> ReadsForward(f.logs[id], ev.request, last)
    ensures id in NextFleet(f, ev, k).logs
    ensures Paced(NextFleet(f, ev, k).logs[id], if ev.Other? && ev.id == id then NextBase(f.logs[id], ev.request, last) else last)
    ensures ev.Other? && ev.id == id ==> NotLowered(f.logs[id], ev.request)
  {
    var r := LogMoves(f, ev, k, id);
    if ev.Other? && ev.id == id {
      ServeKeepsPaced(f.logs[id], ev.request, last);
      OtherMoves(f, ev, k);
    } else if NextFleet(f, ev, k).logs[id] != f.logs[id] {
      ServeKeepsPaced(f.logs[id], r, last);
    }
  }

  /** A request that is left to another controller records no attempt. */
  lemma OtherMoves(f: State, ev: Event, k: Settings)
    requires Ok(f) && ev.Other? && ev.id in f.logs
    ensures var log := NextFleet(f, ev, k).logs[ev.id];
            log == Serve(f.logs[ev.id], ev.request) || (log == f.logs[ev.id] && !ev.request.action.RecordAttempt?)
  {
  }

  lemma {:induction false} OrderlyIsPaced(events: seq<Event>, k: Settings, id: Id)
    requires OrderlyFleet(events, k) && id in RunFleet(events, k).logs
    ensures Paced(RunFleet(events, k).logs[id], LastBase(events, k, id))
    decreases |events|
  {
    var before, ev := events[..|events| - 1], events[|events| - 1];
    var f := RunFleet(before, k);
    RunKeepsLogs(before, k);
    if id in f.logs {
      OrderlyIsPaced(before, k, id);
      NextKeepsPaced(f, ev, k, id, LastBase(before, k, id));
    } else {
      FreshBase(before, k, id);
      CreatedIsPaced(f, ev, k, id);
    }
  }

  lemma CreatedIsPaced(f: State, ev: Event, k: Settings, id: Id)
    requires Ok(f) && id !in f.logs && id in NextFleet(f, ev, k).logs
    ensures Paced(NextFleet(f, ev, k).logs[id], 0) && ev.Create?
  {
  }

  /** Nothing was recorded for a composition that does not exist yet. */
  lemma {:induction false} FreshBase(events: seq<Event>, k: Settings, id: Id)
    requires id !in RunFleet(events, k).logs
    ensures LastBase(events, k, id) == 0
  {
    if events != [] {
      var before := events[..|events| - 1];
      assert RunFleet(before, k).logs.Keys <= RunFleet(events, k).logs.Keys;
      FreshBase(before, k, id);
    }
  }

  lemma {:induction false} OrderlyIsSteady(events: seq<Event>, k: Settings)
    requires OrderlyFleet(events, k)
    ensures SteadyRun(events, k)
  {
    if events != [] {
      var before, ev := events[..|events| - 1], events[|events| - 1];
      OrderlyIsSteady(before, k);
      var f := RunFleet(before, k);
      if ev.Other? && ev.id in f.logs {
        RunKeepsLogs(before, k);
        OrderlyIsPaced(before, k, ev.id);
        NextKeepsPaced(f, ev, k, ev.id, LastBase(before, k, ev.id));
      }
    }
  }

  /** The same without a word about the counter. */
  lemma {:induction false} OneDeferredInOrder(events: seq<Event>, k: Settings)
    requires OrderlyFleet(events, k)
    ensures |Having(RunFleet(events, k), InFlight)| <= 1
  {
    OrderlyIsSteady(events, k);
    OneDeferredAtATime(events, k);
  }
}
