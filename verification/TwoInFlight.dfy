/** A run of the fleet in which two deferred syntheses are in flight: why the rollout theorem asks that no
    recorded attempt reopens a synthesis. */
module TwoInFlight {
  import opened Api
  import opened Lifecycle
  import opened History
  import opened Limits
  import opened Fleet

  predicate Plain(c: Composition) {
    Initial(c) && c.bindings == [] && !c.ignoreSideEffects
  }

  // ---------- One composition ----------

  const INPUT := InputRevision("a", "1", None, None)

  /** The writes on the first composition; the second one follows it for three of them. */
  function WriteAt(i: nat): Action {
    match i
    case 0 => Swap(Synthesizer(1, []), 0)
    case 1 => ObserveInput(INPUT, true, 0)
    case 2 => RolloutSwap(0)
    case 3 => Dispatch
    case 4 => RecordAttempt(1, 1, 0)
    case 5 => RecordAttempt(1, 2, 0)
    case _ => RecordAttempt(1, 1, 0)
  }

  /** The last attempt is computed from version 4, after one was computed from version 5. */
  function Base(i: nat): nat {
    if i == 6 then 4 else i
  }

  function RequestAt(i: nat): Request {
    Request(Base(i), WriteAt(i))
  }

  function Asking(c: Composition): Composition {
    Swapped(c, 0).(inputRevisions := [INPUT], pending := Some(0))
  }

  /** The deferred synthesis, with this many attempts. */
  function Rolling(c: Composition, uuid: Uuid, attempts: nat): Composition {
    var s := FreshSynthesis(c.generation, 0).(deferred := true, uuid := uuid, attempts := attempts, podCreation := if attempts > 0 then Some(0) else None);
    c.(inputRevisions := [INPUT], current := Some(s))
  }

  function Version(c: Composition, i: nat): Composition {
    match i
    case 0 => c
    case 1 => Swapped(c, 0)
    case 2 => Asking(c)
    case 3 => Rolling(c, NO_UUID, 0)
    case 4 => Rolling(c, 1, 0)
    case 5 => Rolling(c, 1, 1)
    case 6 => Rolling(c, 1, 2)
    case _ => Rolling(c, 1, 1)
  }

  function LogAt(c: Composition, i: nat): (h: Log)
    ensures |h.versions| == i + 1 && forall n :: 0 <= n <= i ==> h.versions[n] == Version(c, n)
  {
    Log(seq(i + 1, n requires 0 <= n => Version(c, n)), seq(i, n requires 0 <= n => WriteAt(n)), if i < 4 then 0 else 1)
  }

  lemma FirstWrites(c: Composition, i: nat)
    requires Plain(c) && i < 3
    ensures Next(Version(c, i), WriteAt(i), 1) == Some(Version(c, i + 1))
  {
    if i == 1 {
      FirstInput(Swapped(c, 0), INPUT, 0, 1);
    }
  }

  lemma LaterWrites(c: Composition, i: nat)
    requires Plain(c) && 3 <= i < 7
    ensures Next(Version(c, i), WriteAt(i), if i == 3 then 1 else 2) == Some(Version(c, i + 1))
    ensures FromItsBase(Version(c, Base(i)), WriteAt(i))
  {
  }

  lemma LogOutcome(c: Composition, i: nat)
    requires Plain(c) && i < 7
    ensures Outcome(LogAt(c, i), RequestAt(i)) == Some(Version(c, i + 1))
  {
    assert Newest(LogAt(c, i)) == Version(c, i) && LogAt(c, i).versions[Base(i)] == Version(c, Base(i));
    if i < 3 {
      FirstWrites(c, i);
    } else {
      LaterWrites(c, i);
    }
  }

  lemma ServeSome(h: Log, r: Request, d: Composition)
    requires h.versions != [] && Outcome(h, r) == Some(d)
    ensures Serve(h, r) == Append(h, r.action, d)
  {
  }

  lemma AppendAt(c: Composition, i: nat)
    requires i < 7
    ensures Append(LogAt(c, i), WriteAt(i), Version(c, i + 1)) == LogAt(c, i + 1)
  {
    assert DrawsUuid(WriteAt(i)) <==> i == 3;
    assert LogAt(c, i).versions + [Version(c, i + 1)] == LogAt(c, i + 1).versions;
    assert LogAt(c, i).writes + [WriteAt(i)] == LogAt(c, i + 1).writes;
  }

  lemma LogStep(c: Composition, i: nat)
    requires Plain(c) && i < 7
    ensures Serve(LogAt(c, i), RequestAt(i)) == LogAt(c, i + 1)
  {
    LogOutcome(c, i);
    ServeSome(LogAt(c, i), RequestAt(i), Version(c, i + 1));
    AppendAt(c, i);
  }

  // ---------- The fleet ----------

  /** What the fleet needs to know about the composition's logs after each write. */
  ghost predicate Chronicle(logs: seq<Log>, k: Settings) {
    && |logs| == 8
    && (forall i :: 0 <= i < 8 ==> |logs[i].versions| == i + 1)
    && (forall i :: 0 <= i < 7 ==> Written(logs, i))
    && RollsFirst(logs[2].versions[2], k) && GoesFirst(logs[3].versions[3], k) && RollsSecond(logs[6].versions[6], logs[2].versions[2], k)
  }

  ghost predicate Written(logs: seq<Log>, i: nat)
    requires i + 1 < |logs| && logs[i].versions != []
  {
    Serve(logs[i], RequestAt(i)) == logs[i + 1]
  }

  predicate RollsFirst(v: Composition, k: Settings) {
    MayRoll([Entry(0, v)], 0, k.cooldown, Entry(0, v))
  }

  predicate GoesFirst(v: Composition, k: Settings) {
    MayDispatch([Entry(0, v)], k.limit, Entry(0, v))
  }

  predicate RollsSecond(v: Composition, w: Composition, k: Settings) {
    MayRoll([Entry(0, v), Entry(1, w)], 0, k.cooldown, Entry(1, w))
  }

  /** How far the compositions are, and what the controllers have chosen. */
  ghost predicate Stand(f: State, logs: seq<Log>, i: nat, j: nat, limiter: Option<Choice>, roller: Option<Choice>) {
    && i < |logs| && j < |logs|
    && f.logs == map[0 := logs[i], 1 := logs[j]] && f.gone == {}
    && f.limiter.chosen == limiter && f.roller.chosen == roller
    && (i < 4 ==> f.limiter.marks == map[0 := 0, 1 := 0])
    && (j < 3 ==> f.roller.marks == map[0 := if i < 3 then 0 else 3, 1 := 0])
  }

  function EventAt(c: Composition, n: nat): Event {
    match n
    case 0 => Create(0, c)
    case 1 => Create(1, c)
    case 2 => Other(0, RequestAt(0))
    case 3 => Other(0, RequestAt(1))
    case 4 => ListForRollout([Seen(0, 2)], 0, 0)
    case 5 => SendSwap(0)
    case 6 => ListForDispatch([Seen(0, 3)], 0)
    case 7 => SendDispatch
    case 8 => Other(0, RequestAt(4))
    case 9 => Other(0, RequestAt(5))
    case 10 => Other(1, RequestAt(0))
    case 11 => Other(1, RequestAt(1))
    case 12 => ListForRollout([Seen(0, 6), Seen(1, 2)], 0, 1)
    case 13 => SendSwap(0)
    case _ => Other(0, RequestAt(6))
  }

  function Story(c: Composition, n: nat): (events: seq<Event>)
    ensures |events| == n && forall i :: 0 <= i < n ==> events[i] == EventAt(c, i)
  {
    seq(n, i requires 0 <= i => EventAt(c, i))
  }

  lemma FirstOther(f: State, logs: seq<Log>, i: nat, j: nat, k: Settings)
    requires Chronicle(logs, k) && Ok(f) && Stand(f, logs, i, j, None, None) && i < 7 && i != 2 && i != 3
    ensures Stand(NextFleet(f, Other(0, RequestAt(i)), k), logs, i + 1, j, None, None)
  {
    assert Written(logs, i);
  }

  lemma SecondOther(f: State, logs: seq<Log>, i: nat, j: nat, k: Settings)
    requires Chronicle(logs, k) && Ok(f) && Stand(f, logs, i, j, None, None) && j < 2
    ensures Stand(NextFleet(f, Other(1, RequestAt(j)), k), logs, i, j + 1, None, None)
  {
    assert Written(logs, j);
  }

  lemma ListRolls(f: State, view: seq<Seen>, pick: nat, k: Settings)
    requires Ok(f) && f.roller.chosen.None? && ValidView(f, f.roller, view) && pick < |view|
    requires MayRoll(Entries(f, f.roller, view), 0, k.cooldown, Entries(f, f.roller, view)[pick])
    ensures NextFleet(f, ListForRollout(view, 0, pick), k) == f.(roller := f.roller.(chosen := Some(Choice(view[pick].id, view[pick].version))))
  {
  }

  lemma ChooseFirst(f: State, logs: seq<Log>, k: Settings)
    requires Chronicle(logs, k) && Ok(f) && Stand(f, logs, 2, 0, None, None)
    ensures Stand(NextFleet(f, ListForRollout([Seen(0, 2)], 0, 0), k), logs, 2, 0, None, Some(Choice(0, 2)))
  {
    var view := [Seen(0, 2)];
    assert ValidView(f, f.roller, view);
    assert Entries(f, f.roller, view) == [Entry(0, logs[2].versions[2])];
    assert RollsFirst(logs[2].versions[2], k);
    ListRolls(f, view, 0, k);
  }

  /** The chosen swap is accepted. */
  lemma SendSwaps(f: State, id: Id, base: nat, log: Log, k: Settings)
    requires Ok(f) && f.roller.chosen == Some(Choice(id, base)) && id in f.logs && id !in f.gone
    requires Serve(f.logs[id], Request(base, RolloutSwap(0))) == log && |log.versions| != |f.logs[id].versions|
    ensures NextFleet(f, SendSwap(0), k) ==
            f.(logs := f.logs[id := log], roller := Control(f.roller.marks[id := |log.versions| - 1], None))
  {
  }

  lemma SwapFirst(f: State, logs: seq<Log>, k: Settings)
    requires Chronicle(logs, k) && Ok(f) && Stand(f, logs, 2, 0, None, Some(Choice(0, 2)))
    ensures Stand(NextFleet(f, SendSwap(0), k), logs, 3, 0, None, None)
  {
    assert Written(logs, 2);
    SendSwaps(f, 0, 2, logs[3], k);
  }

  lemma ChooseDispatch(f: State, logs: seq<Log>, k: Settings)
    requires Chronicle(logs, k) && Ok(f) && Stand(f, logs, 3, 0, None, None)
    ensures Stand(NextFleet(f, ListForDispatch([Seen(0, 3)], 0), k), logs, 3, 0, Some(Choice(0, 3)), None)
  {
    var view := [Seen(0, 3)];
    assert ValidView(f, f.limiter, view);
    assert Entries(f, f.limiter, view) == [Entry(0, logs[3].versions[3])];
  }

  lemma DispatchFirst(f: State, logs: seq<Log>, k: Settings)
    requires Chronicle(logs, k) && Ok(f) && Stand(f, logs, 3, 0, Some(Choice(0, 3)), None)
    ensures Stand(NextFleet(f, SendDispatch, k), logs, 4, 0, None, None)
  {
    assert Written(logs, 3);
  }

  lemma SecondView(f: State, logs: seq<Log>, k: Settings)
    requires Chronicle(logs, k) && Stand(f, logs, 6, 2, None, None)
    ensures ValidView(f, f.roller, [Seen(0, 6), Seen(1, 2)])
  {
    var view := [Seen(0, 6), Seen(1, 2)];
    assert view[0].id == 0 && view[0].version >= f.roller.marks[0];
  }

  lemma SecondEntries(f: State, logs: seq<Log>, k: Settings)
    requires Chronicle(logs, k) && Stand(f, logs, 6, 2, None, None) && ValidView(f, f.roller, [Seen(0, 6), Seen(1, 2)])
    ensures Entries(f, f.roller, [Seen(0, 6), Seen(1, 2)]) == [Entry(0, logs[6].versions[6]), Entry(1, logs[2].versions[2])]
  {
  }

  lemma ChooseSecond(f: State, logs: seq<Log>, k: Settings)
    requires Chronicle(logs, k) && Ok(f) && Stand(f, logs, 6, 2, None, None)
    ensures Stand(NextFleet(f, ListForRollout([Seen(0, 6), Seen(1, 2)], 0, 1), k), logs, 6, 2, None, Some(Choice(1, 2)))
  {
    SecondView(f, logs, k);
    SecondEntries(f, logs, k);
    assert RollsSecond(logs[6].versions[6], logs[2].versions[2], k);
    ListRolls(f, [Seen(0, 6), Seen(1, 2)], 1, k);
  }

  lemma SwapSecond(f: State, logs: seq<Log>, k: Settings)
    requires Chronicle(logs, k) && Ok(f) && Stand(f, logs, 6, 2, None, Some(Choice(1, 2)))
    ensures Stand(NextFleet(f, SendSwap(0), k), logs, 6, 3, None, None)
  {
    assert Written(logs, 2);
    SendSwaps(f, 1, 2, logs[3], k);
  }

  ghost predicate Told(f: State, logs: seq<Log>, n: nat) {
    match n
    case 2 => Stand(f, logs, 0, 0, None, None)
    case 3 => Stand(f, logs, 1, 0, None, None)
    case 4 => Stand(f, logs, 2, 0, None, None)
    case 5 => Stand(f, logs, 2, 0, None, Some(Choice(0, 2)))
    case 6 => Stand(f, logs, 3, 0, None, None)
    case 7 => Stand(f, logs, 3, 0, Some(Choice(0, 3)), None)
    case 8 => Stand(f, logs, 4, 0, None, None)
    case 9 => Stand(f, logs, 5, 0, None, None)
    case 10 => Stand(f, logs, 6, 0, None, None)
    case 11 => Stand(f, logs, 6, 1, None, None)
    case 12 => Stand(f, logs, 6, 2, None, None)
    case 13 => Stand(f, logs, 6, 2, None, Some(Choice(1, 2)))
    case 14 => Stand(f, logs, 6, 3, None, None)
    case _ => Stand(f, logs, 7, 3, None, None)
  }

  lemma FirstRollout(f: State, c: Composition, logs: seq<Log>, n: nat, k: Settings)
    requires Chronicle(logs, k) && Ok(f) && 2 <= n < 6 && Told(f, logs, n)
    ensures Told(NextFleet(f, EventAt(c, n), k), logs, n + 1)
  {
    match n
    case 2 => FirstOther(f, logs, 0, 0, k);
    case 3 => FirstOther(f, logs, 1, 0, k);
    case 4 => ChooseFirst(f, logs, k);
    case 5 => SwapFirst(f, logs, k);
  }

  lemma FirstAttempts(f: State, c: Composition, logs: seq<Log>, n: nat, k: Settings)
    requires Chronicle(logs, k) && Ok(f) && 6 <= n < 10 && Told(f, logs, n)
    ensures Told(NextFleet(f, EventAt(c, n), k), logs, n + 1)
  {
    match n
    case 6 => ChooseDispatch(f, logs, k);
    case 7 => DispatchFirst(f, logs, k);
    case 8 => FirstOther(f, logs, 4, 0, k);
    case 9 => FirstOther(f, logs, 5, 0, k);
  }

  lemma SecondRollout(f: State, c: Composition, logs: seq<Log>, n: nat, k: Settings)
    requires Chronicle(logs, k) && Ok(f) && 10 <= n < 15 && Told(f, logs, n)
    ensures Told(NextFleet(f, EventAt(c, n), k), logs, n + 1)
  {
    match n
    case 10 => SecondOther(f, logs, 6, 0, k);
    case 11 => SecondOther(f, logs, 6, 1, k);
    case 12 => ChooseSecond(f, logs, k);
    case 13 => SwapSecond(f, logs, k);
    case 14 => FirstOther(f, logs, 6, 3, k);
  }

  lemma StoryStep(f: State, c: Composition, logs: seq<Log>, n: nat, k: Settings)
    requires Chronicle(logs, k) && Ok(f) && 2 <= n < 15 && Told(f, logs, n)
    ensures Told(NextFleet(f, EventAt(c, n), k), logs, n + 1)
  {
    if n < 6 {
      FirstRollout(f, c, logs, n, k);
    } else if n < 10 {
      FirstAttempts(f, c, logs, n, k);
    } else {
      SecondRollout(f, c, logs, n, k);
    }
  }

  lemma RunNext(c: Composition, n: nat, k: Settings)
    ensures RunFleet(Story(c, n + 1), k) == NextFleet(RunFleet(Story(c, n), k), EventAt(c, n), k)
  {
    assert Story(c, n + 1)[..n] == Story(c, n);
  }

  lemma AfterCreation(c: Composition, logs: seq<Log>, k: Settings)
    requires Initial(c) && logs != [] && logs[0] == Start(c)
    ensures Told(RunFleet(Story(c, 2), k), logs, 2)
  {
    assert Story(c, 0) == [];
    RunNext(c, 0, k);
    RunNext(c, 1, k);
  }

  lemma {:induction false} AfterStory(c: Composition, logs: seq<Log>, n: nat, k: Settings)
    requires Initial(c) && Chronicle(logs, k) && logs[0] == Start(c) && 2 <= n <= 15
    ensures Told(RunFleet(Story(c, n), k), logs, n)
  {
    if n == 2 {
      AfterCreation(c, logs, k);
    } else {
      AfterStory(c, logs, n - 1, k);
      RunNext(c, n - 1, k);
      StoryStep(RunFleet(Story(c, n - 1), k), c, logs, n - 1, k);
    }
  }

  // ---------- The run ----------

  lemma FirstMayRoll(c: Composition, k: Settings)
    requires Plain(c)
    ensures RollsFirst(Asking(c), k)
  {
    assert [Entry(0, Asking(c))][0] == Entry(0, Asking(c));
  }

  lemma FirstMayGo(c: Composition, k: Settings)
    requires Plain(c) && k.limit > 0
    ensures GoesFirst(Rolling(c, NO_UUID, 0), k)
  {
    var list := [Entry(0, Rolling(c, NO_UUID, 0))];
    assert list[..0] == [];
    assert CountIf(list, Active) == 0;
  }

  lemma SecondMayRoll(c: Composition, k: Settings)
    requires Plain(c)
    ensures RollsSecond(Rolling(c, 1, 2), Asking(c), k)
  {
    var list := [Entry(0, Rolling(c, 1, 2)), Entry(1, Asking(c))];
    assert list[1] in list;
    assert Calm(list, 0, k.cooldown);
  }

  function Logs(c: Composition): (logs: seq<Log>)
    ensures |logs| == 8 && forall i :: 0 <= i < 8 ==> logs[i] == LogAt(c, i)
  {
    seq(8, i requires 0 <= i => LogAt(c, i))
  }

  lemma LogsAreChronicle(c: Composition, k: Settings)
    requires Plain(c) && k.limit > 0
    ensures Chronicle(Logs(c), k)
  {
    forall i | 0 <= i < 7 ensures Written(Logs(c), i) { LogStep(c, i); }
    FirstMayRoll(c, k);
    FirstMayGo(c, k);
    SecondMayRoll(c, k);
  }

  lemma BothFly(f: State, logs: seq<Log>)
    requires Ok(f) && |logs| == 8 && Stand(f, logs, 7, 3, None, None) && logs[7].versions != [] && logs[3].versions != []
    requires InFlight(Newest(logs[7])) && InFlight(Newest(logs[3]))
    ensures |Having(f, InFlight)| == 2
  {
    assert Having(f, InFlight) == {0, 1};
  }

  /** The first composition's deferred synthesis reaches its second attempt, so the second one is rolled
      out; then an attempt computed from an older read lowers the first counter, and both syntheses are
      in flight, whatever the cooldown. */
  lemma {:induction false} LoweredAttemptBreaksRollout(c: Composition, k: Settings)
    requires Plain(c) && k.limit > 0
    ensures |Having(RunFleet(Story(c, 15), k), InFlight)| == 2
  {
    LogsAreChronicle(c, k);
    assert LogAt(c, 0) == Start(c);
    AfterStory(c, Logs(c), 15, k);
    BothFly(RunFleet(Story(c, 15), k), Logs(c));
  }
}
