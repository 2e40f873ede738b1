/** The write buffer for slice states: a map of updates per slice plus a work queue of slices, used
    by any number of producers and one worker. Each event below is one critical section. */
module WriteBuffer {
  import opened Api
  import opened StatusPatch

  /** A slice. */
  type Key = SliceName

  /** The n-th accepted patch function, for one manifest. */
  datatype Update = Update(ref: ManifestRef, id: nat, wish: Wish)

  // ---------- The work queue ----------

  datatype Queue = Queue(items: seq<Key>, dirty: set<Key>, processing: set<Key>, delayed: set<Key>)

  function Add(q: Queue, k: Key): Queue {
    if k in q.dirty then q
    else q.(dirty := q.dirty + {k}, items := if k in q.processing then q.items else q.items + [k])
  }

  function Get(q: Queue): Queue
    requires q.items != []
  {
    q.(items := q.items[1..], dirty := q.dirty - {q.items[0]}, processing := q.processing + {q.items[0]})
  }

  function Done(q: Queue, k: Key): Queue {
    q.(processing := q.processing - {k}, items := if k in q.dirty then q.items + [k] else q.items)
  }

  /** The limiter's delay may be zero. */
  function AddRateLimited(q: Queue, k: Key, delay: nat): Queue {
    if delay == 0 then Add(q, k) else q.(delayed := q.delayed + {k})
  }

  // ---------- The buffer ----------

  type Buffer = map<Key, seq<Update>>

  function At(b: Buffer, k: Key): seq<Update> {
    if k in b then b[k] else []
  }

  function IndexOf(list: seq<Update>, r: ManifestRef): (i: nat)
    ensures i <= |list|
    ensures i < |list| ==> list[i].ref == r
    ensures forall j :: 0 <= j < i ==> list[j].ref != r
  {
    if list == [] || list[0].ref == r then 0 else 1 + IndexOf(list[1..], r)
  }

  predicate Replaces(b: Buffer, u: Update) {
    IndexOf(At(b, u.ref.slice), u.ref) < |At(b, u.ref.slice)|
  }

  function Put(b: Buffer, u: Update): Buffer {
    var list := At(b, u.ref.slice);
    var i := IndexOf(list, u.ref);
    b[u.ref.slice := if i < |list| then list[i := u] else list + [u]]
  }

  // ---------- Steps ----------

  /** Where the worker stands in the processing of one queue item. */
  datatype Worker =
    | Idle
    | Got(key: Key)
    | Sending(key: Key, batch: seq<Update>)
    | Failed(key: Key, batch: seq<Update>)
    | Requeueing(key: Key)
    | Finishing(key: Key)

  /** What the server has on record for a manifest, and the update that it stems from. */
  datatype Record = Record(state: ResourceState, id: nat)

  type Store = map<ManifestRef, Record>

  function StateIn(store: Store, r: ManifestRef): ResourceState {
    if r in store then store[r].state else BLANK_STATE
  }

  /** `accepted` lists all updates; `history` all versions of the server's record, any of which the
      worker's cache may show. An accepted update ends up `superseded` by a newer one, `sent`, `found` on
      record in the version that the worker read, or `dropped` because the slice is gone. */
  datatype State = State(
    buffer: Buffer, queue: Queue, worker: Worker, accepted: seq<Update>, history: seq<Store>,
    superseded: set<nat>, sent: set<nat>, found: set<nat>, dropped: set<nat>)

  function Now(s: State): Store {
    if s.history == [] then map[] else s.history[|s.history| - 1]
  }

  datatype Event =
    | PatchStatusAsync(ref: ManifestRef, wish: Wish)
    | GetItem
    | Take
    | SendSucceeds(read: nat)                  // the version that the cache shows
    | SliceIsGone
    | SendFails(applied: bool, read: nat)      // the request may have been applied although it failed
    | PutBack
    | Requeue(delay: nat)
    | DoneItem
    | DelayElapses(key: Key)

  function Ids(list: seq<Update>): set<nat> {
    set i | 0 <= i < |list| :: list[i].id
  }

  /** The version read asks for no patch. */
  predicate Skips(seen: Store, u: Update) {
    OnRecord(u.wish, StateIn(seen, u.ref))
  }

  function SkippedIds(seen: Store, batch: seq<Update>): set<nat> {
    set i | 0 <= i < |batch| && Skips(seen, batch[i]) :: batch[i].id
  }

  /** The patches are computed on the version read and applied to the newest one. */
  function ApplyBatch(seen: Store, store: Store, batch: seq<Update>): Store {
    if batch == [] then store
    else
      var u, rest := batch[|batch| - 1], ApplyBatch(seen, store, batch[..|batch| - 1]);
      if Skips(seen, u) then rest else rest[u.ref := Record(Wanted(u.wish), u.id)]
  }

  function NextBuffer(s: State, ev: Event): State {
    match ev
    case PatchStatusAsync(r, wish) =>
      var u, list := Update(r, |s.accepted|, wish), At(s.buffer, r.slice);
      var i := IndexOf(list, r);
      s.(buffer := Put(s.buffer, u), accepted := s.accepted + [u],
         queue := if i < |list| then s.queue else Add(s.queue, r.slice),
         superseded := if i < |list| then s.superseded + {list[i].id} else s.superseded)
    case GetItem =>
      if s.worker.Idle? && s.queue.items != [] then s.(queue := Get(s.queue), worker := Got(s.queue.items[0])) else s
    case Take =>
      if s.worker.Got? then
        var k := s.worker.key;
        s.(buffer := s.buffer - {k}, worker := if At(s.buffer, k) == [] then Finishing(k) else Sending(k, At(s.buffer, k)))
      else s
    case SendSucceeds(read) =>
      if s.worker.Sending? && read < |s.history| then
        var seen, batch := s.history[read], s.worker.batch;
        s.(history := s.history + [ApplyBatch(seen, Now(s), batch)], worker := Requeueing(s.worker.key),
           sent := s.sent + (Ids(batch) - SkippedIds(seen, batch)), found := s.found + SkippedIds(seen, batch))
      else s
    case SliceIsGone =>
      if s.worker.Sending? then s.(dropped := s.dropped + Ids(s.worker.batch), worker := Requeueing(s.worker.key)) else s
    case SendFails(applied, read) =>
      if s.worker.Sending? then
        s.(history := if applied && read < |s.history| then s.history + [ApplyBatch(s.history[read], Now(s), s.worker.batch)] else s.history,
           worker := Failed(s.worker.key, s.worker.batch))
      else s
    case PutBack =>
      if s.worker.Failed? then
        s.(buffer := s.buffer[s.worker.key := s.worker.batch + At(s.buffer, s.worker.key)], worker := Requeueing(s.worker.key))
      else s
    case Requeue(delay) =>
      if s.worker.Requeueing? then s.(queue := AddRateLimited(s.queue, s.worker.key, delay), worker := Finishing(s.worker.key)) else s
    case DoneItem =>
      if s.worker.Finishing? then s.(queue := Done(s.queue, s.worker.key), worker := Idle) else s
    case DelayElapses(k) =>
      if k in s.queue.delayed then s.(queue := Add(s.queue.(delayed := s.queue.delayed - {k}), k)) else s
  }

  const EMPTY := State(map[], Queue([], {}, {}, {}), Idle, [], [map[]], {}, {}, {}, {})

  function RunBuffer(events: seq<Event>): State {
    if events == [] then EMPTY else NextBuffer(RunBuffer(events[..|events| - 1]), events[|events| - 1])
  }

  lemma RunSnoc(events: seq<Event>, ev: Event)
    ensures RunBuffer(events + [ev]) == NextBuffer(RunBuffer(events), ev)
  {
    assert (events + [ev])[..|events|] == events;
  }

  // ---------- No lost wakeup ----------

  predicate HeldBy(w: Worker, k: Key) {
    !w.Idle? && w.key == k
  }

  /** The worker will still take the key's updates, or queue the key again. */
  predicate WillReturn(w: Worker, k: Key) {
    (w.Got? || w.Sending? || w.Failed? || w.Requeueing?) && w.key == k
  }

  predicate Attended(s: State, k: Key) {
    k in s.queue.items || (k in s.queue.dirty && HeldBy(s.worker, k)) || k in s.queue.delayed || WillReturn(s.worker, k)
  }

  ghost predicate QueueOk(q: Queue, w: Worker) {
    && (forall k :: k in q.processing <==> HeldBy(w, k))
    && (forall k :: k in q.items <==> k in q.dirty && k !in q.processing)
    && (forall i, j :: 0 <= i < j < |q.items| ==> q.items[i] != q.items[j])
  }

  ghost predicate Awake(s: State) {
    && QueueOk(s.queue, s.worker)
    && forall k <- s.buffer :: Attended(s, k)
  }

  lemma AddKeepsQueue(q: Queue, w: Worker, k: Key)
    requires QueueOk(q, w)
    ensures QueueOk(Add(q, k), w)
    ensures k in Add(q, k).items || (k in Add(q, k).dirty && HeldBy(w, k))
    ensures forall x <- q.items :: x in Add(q, k).items
    ensures q.dirty <= Add(q, k).dirty && q.delayed == Add(q, k).delayed
  {
  }

  lemma NextKeepsQueue(s: State, ev: Event)
    requires QueueOk(s.queue, s.worker)
    ensures var t := NextBuffer(s, ev); QueueOk(t.queue, t.worker)
  {
    match ev
    case PatchStatusAsync(r, _) => AddKeepsQueue(s.queue, s.worker, r.slice);
    case Requeue(delay) => if s.worker.Requeueing? { AddKeepsQueue(s.queue, s.worker, s.worker.key); }
    case DelayElapses(k) => AddKeepsQueue(s.queue.(delayed := s.queue.delayed - {k}), s.worker, k);
    case GetItem =>
      if s.worker.Idle? && s.queue.items != [] {
        assert s.queue.items == [s.queue.items[0]] + s.queue.items[1..];
        assert s.queue.items[0] in s.queue.items;
      }
    case DoneItem =>
    case Take =>
    case SendSucceeds(_) =>
    case SliceIsGone =>
    case SendFails(_, _) =>
    case PutBack =>
  }

  /** Who was attended to is attended to, except a key whose updates have just been taken. */
  lemma NextAttends(s: State, ev: Event, k: Key)
    requires QueueOk(s.queue, s.worker) && Attended(s, k)
    requires !(ev.Take? && s.worker.Got? && s.worker.key == k && At(s.buffer, k) == [])
    ensures Attended(NextBuffer(s, ev), k)
  {
    match ev
    case PatchStatusAsync(r, _) => AddKeepsQueue(s.queue, s.worker, r.slice);
    case Requeue(delay) => if s.worker.Requeueing? { AddKeepsQueue(s.queue, s.worker, s.worker.key); }
    case DelayElapses(x) => AddKeepsQueue(s.queue.(delayed := s.queue.delayed - {x}), s.worker, x);
    case GetItem =>
      if s.worker.Idle? && s.queue.items != [] {
        assert s.queue.items == [s.queue.items[0]] + s.queue.items[1..];
      }
    case DoneItem =>
    case Take =>
    case SendSucceeds(_) =>
    case SliceIsGone =>
    case SendFails(_, _) =>
    case PutBack =>
  }

  lemma NextKeepsAwake(s: State, ev: Event)
    requires Awake(s)
    ensures Awake(NextBuffer(s, ev))
  {
    var t := NextBuffer(s, ev);
    NextKeepsQueue(s, ev);
    forall k | k in t.buffer ensures Attended(t, k) {
      if k in s.buffer {
        NextAttends(s, ev, k);
      } else if ev.PatchStatusAsync? {
        AddKeepsQueue(s.queue, s.worker, k);
      }
    }
  }

  lemma {:induction false} RunKeepsAwake(events: seq<Event>)
    ensures Awake(RunBuffer(events))
  {
    if events != [] {
      RunKeepsAwake(events[..|events| - 1]);
      NextKeepsAwake(RunBuffer(events[..|events| - 1]), events[|events| - 1]);
    }
  }

  /** In every interleaving a slice with buffered updates is queued, dirty, delayed, or held by the
      worker where it will still take them or queue the slice again. */
  lemma NoLostWakeup(events: seq<Event>, k: Key)
    requires k in RunBuffer(events).buffer
    ensures Attended(RunBuffer(events), k)
  {
    RunKeepsAwake(events);
  }

  /** So nothing is left behind when the queue is quiet. */
  lemma QuietMeansEmpty(events: seq<Event>)
    requires var s := RunBuffer(events); s.queue.items == [] && s.queue.delayed == {} && s.worker.Idle?
    ensures RunBuffer(events).buffer == map[]
  {
    RunKeepsAwake(events);
    var s := RunBuffer(events);
    assert forall k <- s.buffer :: Attended(s, k);
    assert s.buffer.Keys == {};
  }

  // ---------- One round ----------

  /** A producer wakes the worker if and only if the manifest has no entry yet. */
  lemma ProducerStep(s: State, r: ManifestRef, wish: Wish)
    ensures var t, u := NextBuffer(s, PatchStatusAsync(r, wish)), Update(r, |s.accepted|, wish);
            && t.buffer == Put(s.buffer, u) && t.worker == s.worker && t.history == s.history
            && t.queue == (if (exists i :: 0 <= i < |At(s.buffer, r.slice)| && At(s.buffer, r.slice)[i].ref == r) then s.queue else Add(s.queue, r.slice))
  {
  }

  /** A round without updates takes the slice off the queue for good. */
  lemma EmptyRound(s: State)
    requires s.worker.Idle? && s.queue.items != [] && At(s.buffer, s.queue.items[0]) == []
    ensures var k, t := s.queue.items[0], NextBuffer(NextBuffer(NextBuffer(s, GetItem), Take), DoneItem);
            && t == s.(buffer := s.buffer - {k}, queue := Done(Get(s.queue), k))
            && t.queue.items == s.queue.items[1..] && k !in t.queue.dirty && k !in t.queue.processing && t.queue.delayed == s.queue.delayed
  {
  }

  /** A round whose batch is sent, or whose slice is gone, comes back after the delay. */
  lemma SentRound(s: State, ev: Event, delay: nat)
    requires s.worker.Idle? && s.queue.items != [] && At(s.buffer, s.queue.items[0]) != []
    requires ev == SliceIsGone || (ev.SendSucceeds? && ev.read < |s.history|)
    ensures var k, t := s.queue.items[0], NextBuffer(NextBuffer(NextBuffer(NextBuffer(NextBuffer(s, GetItem), Take), ev), Requeue(delay)), DoneItem);
            && t.worker.Idle? && t.buffer == s.buffer - {k} && t.queue == Done(AddRateLimited(Get(s.queue), k, delay), k)
            && (if ev == SliceIsGone then t.history == s.history
                else t.history == s.history + [ApplyBatch(s.history[ev.read], Now(s), At(s.buffer, k))])
  {
  }

  /** A round whose send fails puts the batch back and comes back as well. */
  lemma FailedRound(s: State, read: nat, delay: nat)
    requires s.worker.Idle? && s.queue.items != [] && At(s.buffer, s.queue.items[0]) != []
    ensures var k := s.queue.items[0];
            var t := NextBuffer(NextBuffer(NextBuffer(NextBuffer(NextBuffer(NextBuffer(s, GetItem), Take), SendFails(false, read)), PutBack), Requeue(delay)), DoneItem);
            && t.worker.Idle? && t.buffer == s.buffer && t.queue == Done(AddRateLimited(Get(s.queue), k, delay), k) && t.history == s.history
  {
    var k := s.queue.items[0];
    assert At(s.buffer, k) + [] == At(s.buffer, k);
    assert (s.buffer - {k})[k := s.buffer[k]] == s.buffer;
  }

  /** A delayed slice is not queued before its delay has elapsed, and is then. */
  lemma DelayExactly(q: Queue, k: Key, delay: nat)
    requires k !in q.dirty && k !in q.processing
    ensures var p := AddRateLimited(q, k, delay);
            if delay == 0 then p.items == q.items + [k] && k in p.dirty && p.delayed == q.delayed
            else p.items == q.items && k in p.delayed && k !in p.dirty
  {
  }

  // ---------- The implementation ----------

  datatype Reply = Applied | NotFound | Error

  /** The buffer after several producers, one after the other. */
  function PutAll(b: Buffer, updates: seq<Update>): Buffer {
    if updates == [] then b else Put(PutAll(b, updates[..|updates| - 1]), updates[|updates| - 1])
  }

  /** The queue after them: only an update that replaces nothing wakes the worker. */
  function QueueAll(b: Buffer, q: Queue, updates: seq<Update>): Queue {
    if updates == [] then q
    else
      var before, u := updates[..|updates| - 1], updates[|updates| - 1];
      if Replaces(PutAll(b, before), u) then QueueAll(b, q, before) else Add(QueueAll(b, q, before), u.ref.slice)
  }

  /** The buffer as the program holds it: what a producer does while it holds the lock, and one whole
      round of the worker. */
  class ResourceSliceWriteBuffer {
    var state: Buffer
    var queue: Queue

    constructor ()
      ensures state == map[] && queue == Queue([], {}, {}, {})
    {
      state := map[];
      queue := Queue([], {}, {}, {});
    }

    /** A producer: replaces the entry of the same manifest, or appends one and wakes the worker. */
    method PatchStatusAsync(u: Update)
      modifies this
      ensures state == Put(old(state), u)
      ensures queue == if Replaces(old(state), u) then old(queue) else Add(old(queue), u.ref.slice)
    {
      var list := At(state, u.ref.slice);
      for i := 0 to |list|
        invariant forall j :: 0 <= j < i ==> list[j].ref != u.ref
        invariant state == old(state) && queue == old(queue)
      {
        if list[i].ref == u.ref {
          assert IndexOf(list, u.ref) == i;
          state := state[u.ref.slice := list[i := u]];
          return;
        }
      }
      assert IndexOf(list, u.ref) == |list|;
      state := state[u.ref.slice := list + [u]];
      queue := Add(queue, u.ref.slice);
    }

    /** One round of the worker, given what the server replies to its batch and what producers put in
        while the batch is out. */
    method ProcessQueueItem(reply: Reply, delay: nat, meanwhile: seq<Update>) returns (batch: seq<Update>)
      requires queue.items != []
      modifies this
      ensures var k, taken := old(queue).items[0], old(state) - {old(queue).items[0]};
              var b, q := PutAll(taken, meanwhile), QueueAll(taken, Get(old(queue)), meanwhile);
              && batch == At(old(state), k)
              && state == (if batch != [] && reply == Error then b[k := batch + At(b, k)] else b)
              && queue == Done(if batch == [] then q else AddRateLimited(q, k, delay), k)
    {
      var k := queue.items[0];
      queue := Get(queue);
      batch := At(state, k);
      state := state - {k};
      ghost var taken, q := state, queue;
      for i := 0 to |meanwhile|
        invariant state == PutAll(taken, meanwhile[..i]) && queue == QueueAll(taken, q, meanwhile[..i])
      {
        assert meanwhile[..i + 1][..i] == meanwhile[..i];
        PatchStatusAsync(meanwhile[i]);
      }
      assert meanwhile[..|meanwhile|] == meanwhile;
      if batch != [] {
        if reply == Error {
          state := state[k := batch + At(state, k)];
        }
        queue := AddRateLimited(queue, k, delay);
      }
      queue := Done(queue, k);
    }
  }
}
