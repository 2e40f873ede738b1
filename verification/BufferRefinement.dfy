/** What becomes of the updates that the write buffer accepts. */
module BufferRefinement {
  import opened Api
  import opened StatusPatch
  import S = SliceStatus
  import opened WriteBuffer

  // ---------- Conservation, in every run ----------

  function InHand(s: State): seq<Update> {
    if s.worker.Sending? || s.worker.Failed? then s.worker.batch else []
  }

  predicate EntryOk(s: State, k: Key, u: Update) {
    u.id < |s.accepted| && s.accepted[u.id] == u && u.ref.slice == k
  }

  ghost predicate Sane(s: State) {
    && (forall k <- s.buffer, u <- s.buffer[k] :: EntryOk(s, k, u))
    && (forall u <- InHand(s) :: EntryOk(s, s.worker.key, u))
    && (forall i :: 0 <= i < |s.accepted| ==> s.accepted[i].id == i)
    && (forall id <- s.dropped :: id < |s.accepted|)
    && s.history != []
  }

  predicate Buffered(s: State, id: nat) {
    exists k <- s.buffer :: id in Ids(s.buffer[k])
  }

  /** A newer update for the same manifest was accepted. */
  ghost predicate Outdated(s: State, id: nat) {
    id < |s.accepted| && exists newer :: id < newer < |s.accepted| && s.accepted[newer].ref == s.accepted[id].ref
  }

  /** Some version of the record was as the update wants it. */
  ghost predicate WasOnRecord(s: State, id: nat) {
    id < |s.accepted| && exists v :: 0 <= v < |s.history| && Skips(s.history[v], s.accepted[id])
  }

  ghost predicate AccountedFor(s: State, id: nat) {
    || Buffered(s, id)
    || id in Ids(InHand(s))
    || (id in s.superseded && Outdated(s, id))
    || id in s.sent
    || (id in s.found && WasOnRecord(s, id))
    || id in s.dropped
  }

  ghost predicate Conserved(s: State) {
    Sane(s) && forall id :: 0 <= id < |s.accepted| ==> AccountedFor(s, id)
  }

  lemma PutOk(s: State, r: ManifestRef, wish: Wish)
    requires Sane(s)
    ensures Sane(NextBuffer(s, PatchStatusAsync(r, wish)))
  {
    var t, u := NextBuffer(s, PatchStatusAsync(r, wish)), Update(r, |s.accepted|, wish);
    forall k, v | k in t.buffer && v in t.buffer[k] ensures EntryOk(t, k, v) {
      if v != u {
        assert k in s.buffer && v in s.buffer[k];
        assert EntryOk(s, k, v);
      }
    }
    forall v <- InHand(t) ensures EntryOk(t, t.worker.key, v) { assert EntryOk(s, s.worker.key, v); }
  }

  lemma DropOk(s: State)
    requires Sane(s)
    ensures Sane(NextBuffer(s, SliceIsGone))
  {
    var t := NextBuffer(s, SliceIsGone);
    forall id <- t.dropped ensures id < |t.accepted| {
      if id !in s.dropped {
        var i :| 0 <= i < |s.worker.batch| && s.worker.batch[i].id == id;
        assert s.worker.batch[i] in InHand(s);
      }
    }
  }

  lemma NextKeepsSane(s: State, ev: Event)
    requires Sane(s)
    ensures Sane(NextBuffer(s, ev))
  {
    var t := NextBuffer(s, ev);
    assert !ev.Take? ==> InHand(t) == InHand(s) || InHand(t) == [];
    match ev
    case PatchStatusAsync(r, wish) => PutOk(s, r, wish);
    case PutBack =>
      if s.worker.Failed? {
        forall k, u | k in t.buffer && u in t.buffer[k] ensures EntryOk(t, k, u) {
          assert u in InHand(s) || (k in s.buffer && u in s.buffer[k]);
        }
      }
    case SliceIsGone => DropOk(s);
    case Take =>
    case GetItem =>
    case SendSucceeds(_) =>
    case SendFails(_, _) =>
    case Requeue(_) =>
    case DoneItem =>
    case DelayElapses(_) =>
  }

  lemma PutAccounts(s: State, r: ManifestRef, wish: Wish, id: nat)
    requires Conserved(s) && id <= |s.accepted|
    ensures AccountedFor(NextBuffer(s, PatchStatusAsync(r, wish)), id)
  {
    var t, u := NextBuffer(s, PatchStatusAsync(r, wish)), Update(r, |s.accepted|, wish);
    var list, list' := At(s.buffer, r.slice), t.buffer[r.slice];
    var i := IndexOf(list, r);
    assert list'[i] == u;
    assert id < |s.accepted| ==> AccountedFor(s, id);
    if id == |s.accepted| {
      assert id in Ids(list');
    } else if Buffered(s, id) {
      var k :| k in s.buffer && id in Ids(s.buffer[k]);
      if k != r.slice {
        assert t.buffer[k] == s.buffer[k];
      } else {
        var j :| 0 <= j < |list| && list[j].id == id;
        if j == i {
          assert EntryOk(s, k, list[i]);
          assert t.accepted[|s.accepted|].ref == t.accepted[id].ref;
        } else {
          assert list'[j] == list[j];
          assert id in Ids(list');
        }
      }
    } else if id in s.superseded && Outdated(s, id) {
      var newer :| id < newer < |s.accepted| && s.accepted[newer].ref == s.accepted[id].ref;
      assert t.accepted[newer].ref == t.accepted[id].ref;
    } else {
      assert InHand(t) == InHand(s);
      assert WasOnRecord(s, id) ==> WasOnRecord(t, id);
    }
  }

  /** What the worker sent, or found on record. */
  lemma SendAccounts(s: State, read: nat, id: nat)
    requires Sane(s) && id in Ids(InHand(s)) && s.worker.Sending? && read < |s.history|
    ensures AccountedFor(NextBuffer(s, SendSucceeds(read)), id)
  {
    var t, batch := NextBuffer(s, SendSucceeds(read)), s.worker.batch;
    var j :| 0 <= j < |batch| && batch[j].id == id;
    assert batch[j] in InHand(s);
    assert EntryOk(s, s.worker.key, batch[j]);
    if id in SkippedIds(s.history[read], batch) {
      var i :| 0 <= i < |batch| && Skips(s.history[read], batch[i]) && batch[i].id == id;
      assert batch[i] in InHand(s);
      assert EntryOk(s, s.worker.key, batch[i]);
      assert Skips(t.history[read], t.accepted[id]);
    }
  }

  lemma RecordStays(s: State, ev: Event, id: nat)
    requires WasOnRecord(s, id) && !ev.PatchStatusAsync?
    ensures WasOnRecord(NextBuffer(s, ev), id)
  {
    var v :| 0 <= v < |s.history| && Skips(s.history[v], s.accepted[id]);
    assert NextBuffer(s, ev).history[v] == s.history[v];
  }

  lemma NextAccounts(s: State, ev: Event, id: nat)
    requires Conserved(s) && id < |s.accepted| && !ev.PatchStatusAsync?
    ensures AccountedFor(NextBuffer(s, ev), id)
  {
    var t := NextBuffer(s, ev);
    assert AccountedFor(s, id) && t.accepted == s.accepted;
    if Buffered(s, id) {
      var k :| k in s.buffer && id in Ids(s.buffer[k]);
      if ev.PutBack? && s.worker.Failed? && k == s.worker.key {
        var j :| 0 <= j < |s.buffer[k]| && s.buffer[k][j].id == id;
        assert t.buffer[k][|s.worker.batch| + j].id == id;
      } else if !(ev.Take? && s.worker.Got? && k == s.worker.key) {
        assert t.buffer[k] == s.buffer[k];
      }
    } else if id in Ids(InHand(s)) {
      if ev.PutBack? && s.worker.Failed? {
        var j :| 0 <= j < |s.worker.batch| && s.worker.batch[j].id == id;
        assert t.buffer[s.worker.key][j].id == id;
      } else if ev.SendSucceeds? && s.worker.Sending? && ev.read < |s.history| {
        SendAccounts(s, ev.read, id);
      }
    } else if id in s.found && WasOnRecord(s, id) {
      RecordStays(s, ev, id);
    }
  }

  lemma {:induction false} RunKeepsConserved(events: seq<Event>)
    ensures Conserved(RunBuffer(events))
  {
    if events != [] {
      var s, ev := RunBuffer(events[..|events| - 1]), events[|events| - 1];
      RunKeepsConserved(events[..|events| - 1]);
      NextKeepsSane(s, ev);
      var t := NextBuffer(s, ev);
      forall id | 0 <= id < |t.accepted| ensures AccountedFor(t, id) {
        if ev.PatchStatusAsync? { PutAccounts(s, ev.ref, ev.wish, id); } else { NextAccounts(s, ev, id); }
      }
    }
  }

  /** Every accepted update is buffered, in flight, superseded by a newer one for the same manifest, sent,
      was found on record by the worker, or was dropped because the slice is gone. */
  lemma {:induction false} NoUpdateIsLost(events: seq<Event>, id: nat)
    requires id < |RunBuffer(events).accepted|
    ensures AccountedFor(RunBuffer(events), id)
  {
    RunKeepsConserved(events);
  }

  // ---------- Refinement of a map from manifest to latest update ----------

  function Find(list: seq<Update>, r: ManifestRef): Option<Update> {
    if IndexOf(list, r) < |list| then Some(list[IndexOf(list, r)]) else None
  }

  /** The abstract state: the update that a manifest waits for, and the record that is stored. */
  function Pending(s: State, r: ManifestRef): Option<Update> {
    var waiting := Find(At(s.buffer, r.slice), r);
    if waiting.Some? then waiting else Find(InHand(s), r)
  }

  function StoredFor(store: Store, r: ManifestRef): Option<Record> {
    if r in store then Some(store[r]) else None
  }

  /** What a batch that was computed on `seen` makes of the record. */
  function Overwritten(seen: Store, store: Store, mine: Option<Update>, r: ManifestRef): Option<Record> {
    if mine.Some? && !Skips(seen, mine.value) then Some(Record(Wanted(mine.value.wish), mine.value.id)) else StoredFor(store, r)
  }

  /** The step of the simple map: a put sets the pending update, a batch stores those of its updates that
      the version read asks for and settles those that are still pending. */
  ghost predicate SpecStep(s: State, ev: Event, t: State, r: ManifestRef) {
    var mine := Find(InHand(s), r);
    var settled := if Pending(s, r) == mine then None else Pending(s, r);
    var stored, stored' := StoredFor(Now(s), r), StoredFor(Now(t), r);
    if ev.PatchStatusAsync? then
      Pending(t, r) == (if r == ev.ref then Some(Update(r, |s.accepted|, ev.wish)) else Pending(s, r)) && stored' == stored
    else if ev.SendSucceeds? && s.worker.Sending? && ev.read < |s.history| then
      Pending(t, r) == settled && stored' == Overwritten(s.history[ev.read], Now(s), mine, r)
    else if ev.SliceIsGone? && s.worker.Sending? then
      Pending(t, r) == settled && stored' == stored
    else if ev.SendFails? && ev.applied && s.worker.Sending? && ev.read < |s.history| then
      Pending(t, r) == Pending(s, r) && stored' == Overwritten(s.history[ev.read], Now(s), mine, r)
    else
      Pending(t, r) == Pending(s, r) && stored' == stored
  }

  predicate Distinct(list: seq<Update>) {
    forall i, j :: 0 <= i < j < |list| ==> list[i].ref != list[j].ref
  }

  predicate Disjoint(a: seq<Update>, b: seq<Update>) {
    forall u <- a :: Find(b, u.ref).None?
  }

  /** No manifest got a new update during its own failing send. */
  predicate CleanFailure(s: State, ev: Event) {
    ev.PutBack? && s.worker.Failed? ==> Disjoint(s.worker.batch, At(s.buffer, s.worker.key))
  }

  predicate CleanRun(events: seq<Event>) {
    events == [] ||
    (CleanRun(events[..|events| - 1]) && CleanFailure(RunBuffer(events[..|events| - 1]), events[|events| - 1]))
  }

  /** Putting a batch back leaves one entry per manifest exactly when the failure was clean. */
  lemma PutBackIsCleanExactly(batch: seq<Update>, rest: seq<Update>)
    requires Distinct(batch) && Distinct(rest)
    ensures Distinct(batch + rest) <==> Disjoint(batch, rest)
  {
    var all := batch + rest;
    assert forall i :: 0 <= i < |batch| ==> all[i] == batch[i];
    assert forall j :: 0 <= j < |rest| ==> all[|batch| + j] == rest[j];
    if Distinct(all) {
      assert forall i, j :: 0 <= i < |batch| && 0 <= j < |rest| ==> batch[i].ref != rest[j].ref;
    }
    if Disjoint(batch, rest) {
      forall i, j | 0 <= i < j < |all| ensures all[i].ref != all[j].ref {
        if i < |batch| <= j {
          assert batch[i] in batch;
          FindIn(rest, j - |batch|);
        }
      }
    }
  }

  lemma FindIn(list: seq<Update>, i: nat)
    requires i < |list|
    ensures Find(list, list[i].ref).Some?
    ensures Distinct(list) ==> Find(list, list[i].ref) == Some(list[i])
  {
  }

  lemma FindConcat(a: seq<Update>, b: seq<Update>, r: ManifestRef)
    ensures Find(a + b, r) == if Find(a, r).Some? then Find(a, r) else Find(b, r)
  {
    var i, j, k := IndexOf(a, r), IndexOf(b, r), IndexOf(a + b, r);
    assert k == if i < |a| then i else |a| + j by {
      if k < |a + b| { assert (a + b)[k].ref == r; }
      if i < |a| { assert (a + b)[i].ref == r; }
      if i == |a| && j < |b| { assert (a + b)[|a| + j].ref == r; }
    }
  }

  lemma FindPut(b: Buffer, u: Update, r: ManifestRef)
    ensures Find(At(Put(b, u), r.slice), r) == if r == u.ref then Some(u) else Find(At(b, r.slice), r)
  {
    if r.slice == u.ref.slice {
      var list, after := At(b, r.slice), At(Put(b, u), r.slice);
      var i := IndexOf(list, u.ref);
      if i < |list| {
        assert after == list[i := u];
        var j, k := IndexOf(list, r), IndexOf(after, r);
        if j < |list| { assert after[j].ref == r; }
        if k < |after| { assert list[k].ref == r; }
        assert j == k;
      } else {
        assert after == list + [u];
        FindConcat(list, [u], r);
      }
    }
  }

  lemma {:induction false} ApplyFinds(seen: Store, store: Store, batch: seq<Update>, r: ManifestRef)
    requires Distinct(batch)
    ensures StoredFor(ApplyBatch(seen, store, batch), r) == Overwritten(seen, store, Find(batch, r), r)
  {
    if batch != [] {
      var n := |batch| - 1;
      ApplyFinds(seen, store, batch[..n], r);
      assert batch == batch[..n] + [batch[n]];
      FindConcat(batch[..n], [batch[n]], r);
      if r == batch[n].ref {
        FindIn(batch, n);
      }
    }
  }

  ghost predicate AllDistinct(s: State) {
    && (forall k <- s.buffer :: Distinct(s.buffer[k]))
    && Distinct(InHand(s))
  }

  lemma NextKeepsDistinct(s: State, ev: Event)
    requires AllDistinct(s) && CleanFailure(s, ev)
    ensures AllDistinct(NextBuffer(s, ev))
  {
    if ev.PutBack? && s.worker.Failed? {
      PutBackIsCleanExactly(s.worker.batch, At(s.buffer, s.worker.key));
    }
  }

  /** Entries of other slices are not in the worker's hand. */
  lemma HandIsOfOneSlice(s: State, r: ManifestRef)
    requires Sane(s) && Find(InHand(s), r).Some?
    ensures s.worker.key == r.slice
  {
    var u := InHand(s)[IndexOf(InHand(s), r)];
    assert u in InHand(s);
  }

  /** Numbers grow along the way of a manifest's updates: stored, in hand, buffered. What waits was not
      dropped. */
  ghost predicate OrderedFor(s: State, r: ManifestRef) {
    var mine, waiting, stored := Find(InHand(s), r), Find(At(s.buffer, r.slice), r), StoredFor(Now(s), r);
    && (mine.Some? && waiting.Some? ==> mine.value.id < waiting.value.id)
    && (stored.Some? && mine.Some? ==> stored.value.id <= mine.value.id)
    && (stored.Some? && waiting.Some? ==> stored.value.id <= waiting.value.id)
    && (stored.Some? ==> stored.value.id < |s.accepted|)
    && (mine.Some? ==> mine.value.id < |s.accepted| && mine.value.id !in s.dropped)
    && (waiting.Some? ==> waiting.value.id < |s.accepted| && waiting.value.id !in s.dropped)
  }

  lemma PutRefines(s: State, p: ManifestRef, wish: Wish, r: ManifestRef)
    requires Sane(s) && OrderedFor(s, r)
    ensures var ev := PatchStatusAsync(p, wish); SpecStep(s, ev, NextBuffer(s, ev), r) && OrderedFor(NextBuffer(s, ev), r)
  {
    FindPut(s.buffer, Update(p, |s.accepted|, wish), r);
    assert InHand(NextBuffer(s, PatchStatusAsync(p, wish))) == InHand(s);
  }

  lemma SendRefines(s: State, read: nat, r: ManifestRef)
    requires Sane(s) && Distinct(InHand(s)) && OrderedFor(s, r)
    ensures var ev := SendSucceeds(read); SpecStep(s, ev, NextBuffer(s, ev), r) && OrderedFor(NextBuffer(s, ev), r)
  {
    if s.worker.Sending? && read < |s.history| {
      ApplyFinds(s.history[read], Now(s), s.worker.batch, r);
      assert InHand(NextBuffer(s, SendSucceeds(read))) == [];
    }
  }

  lemma FailureRefines(s: State, applied: bool, read: nat, r: ManifestRef)
    requires Sane(s) && Distinct(InHand(s)) && OrderedFor(s, r)
    ensures var ev := SendFails(applied, read); SpecStep(s, ev, NextBuffer(s, ev), r) && OrderedFor(NextBuffer(s, ev), r)
  {
    if s.worker.Sending? {
      assert InHand(NextBuffer(s, SendFails(applied, read))) == InHand(s);
      if read < |s.history| {
        ApplyFinds(s.history[read], Now(s), s.worker.batch, r);
      }
    }
  }

  /** What waits in the buffer is not among what is dropped. */
  lemma DropSparesWaiting(s: State, r: ManifestRef)
    requires Sane(s) && Distinct(InHand(s)) && OrderedFor(s, r) && s.worker.Sending? && Find(At(s.buffer, r.slice), r).Some?
    ensures Find(At(s.buffer, r.slice), r).value.id !in Ids(s.worker.batch)
  {
    var list, batch := At(s.buffer, r.slice), s.worker.batch;
    var u := list[IndexOf(list, r)];
    assert u in s.buffer[r.slice];
    assert EntryOk(s, r.slice, u);
    if i :| 0 <= i < |batch| && batch[i].id == u.id {
      assert batch[i] in InHand(s);
      assert EntryOk(s, s.worker.key, batch[i]);
      FindIn(batch, i);
    }
  }

  lemma DropRefines(s: State, r: ManifestRef)
    requires Sane(s) && Distinct(InHand(s)) && OrderedFor(s, r)
    ensures SpecStep(s, SliceIsGone, NextBuffer(s, SliceIsGone), r) && OrderedFor(NextBuffer(s, SliceIsGone), r)
  {
    if s.worker.Sending? {
      assert InHand(NextBuffer(s, SliceIsGone)) == [];
      if Find(At(s.buffer, r.slice), r).Some? {
        DropSparesWaiting(s, r);
      }
    }
  }

  lemma PutBackRefines(s: State, r: ManifestRef)
    requires Sane(s) && OrderedFor(s, r) && CleanFailure(s, PutBack)
    ensures SpecStep(s, PutBack, NextBuffer(s, PutBack), r) && OrderedFor(NextBuffer(s, PutBack), r)
  {
    if s.worker.Failed? {
      var batch := s.worker.batch;
      assert InHand(s) == batch;
      if Find(batch, r).Some? {
        HandIsOfOneSlice(s, r);
        assert batch[IndexOf(batch, r)] in batch;
        assert Find(At(s.buffer, r.slice), r).None?;
      }
      if r.slice == s.worker.key {
        FindConcat(batch, At(s.buffer, r.slice), r);
      }
    }
  }

  lemma TakeRefines(s: State, r: ManifestRef)
    requires Sane(s) && OrderedFor(s, r)
    ensures SpecStep(s, Take, NextBuffer(s, Take), r) && OrderedFor(NextBuffer(s, Take), r)
  {
    if s.worker.Got? {
      var list, t := At(s.buffer, s.worker.key), NextBuffer(s, Take);
      assert InHand(t) == list && InHand(s) == [];
      if Find(list, r).Some? {
        assert list[IndexOf(list, r)] in s.buffer[s.worker.key];
        assert EntryOk(s, s.worker.key, list[IndexOf(list, r)]);
      }
    }
  }

  lemma QueueStepRefines(s: State, ev: Event, r: ManifestRef)
    requires OrderedFor(s, r) && (ev.GetItem? || ev.Requeue? || ev.DoneItem? || ev.DelayElapses?)
    ensures SpecStep(s, ev, NextBuffer(s, ev), r) && OrderedFor(NextBuffer(s, ev), r)
  {
    assert InHand(NextBuffer(s, ev)) == InHand(s);
  }

  /** Every step of the buffer is a step of the simple map. */
  lemma Refines(s: State, ev: Event, r: ManifestRef)
    requires Sane(s) && AllDistinct(s) && OrderedFor(s, r) && CleanFailure(s, ev)
    ensures SpecStep(s, ev, NextBuffer(s, ev), r) && OrderedFor(NextBuffer(s, ev), r)
  {
    match ev
    case PatchStatusAsync(p, wish) => PutRefines(s, p, wish, r);
    case SendSucceeds(read) => SendRefines(s, read, r);
    case SliceIsGone => DropRefines(s, r);
    case SendFails(applied, read) => FailureRefines(s, applied, read, r);
    case PutBack => PutBackRefines(s, r);
    case Take => TakeRefines(s, r);
    case GetItem => QueueStepRefines(s, ev, r);
    case Requeue(_) => QueueStepRefines(s, ev, r);
    case DoneItem => QueueStepRefines(s, ev, r);
    case DelayElapses(_) => QueueStepRefines(s, ev, r);
  }

  // ---------- Whole runs ----------

  /** The last update accepted for a manifest. */
  function LatestFor(accepted: seq<Update>, r: ManifestRef): Option<Update> {
    if accepted == [] then None
    else if accepted[|accepted| - 1].ref == r then Some(accepted[|accepted| - 1])
    else LatestFor(accepted[..|accepted| - 1], r)
  }

  /** What a manifest waits for is its latest update; if it waits for none, the record is as the latest
      update wants it, or that update was dropped because the slice is gone. */
  ghost predicate UpToDate(s: State, r: ManifestRef) {
    var latest := LatestFor(s.accepted, r);
    if Pending(s, r).Some? then Pending(s, r) == latest
    else latest.None? || Skips(Now(s), latest.value) || latest.value.id in s.dropped
  }

  /** The worker skips the update that the manifest waits for, because the version read shows what is no
      longer on record. */
  predicate Misled(s: State, ev: Event, r: ManifestRef) {
    && ev.SendSucceeds? && s.worker.Sending? && ev.read < |s.history|
    && Find(At(s.buffer, r.slice), r).None? && Find(InHand(s), r).Some?
    && Skips(s.history[ev.read], Find(InHand(s), r).value) && !Skips(Now(s), Find(InHand(s), r).value)
  }

  lemma FindHas(list: seq<Update>, r: ManifestRef)
    ensures Find(list, r).Some? ==> Find(list, r).value.ref == r && Find(list, r).value.id in Ids(list)
  {
    if Find(list, r).Some? {
      assert list[IndexOf(list, r)].id in Ids(list);
    }
  }

  lemma {:induction false} LatestIsFor(accepted: seq<Update>, r: ManifestRef)
    ensures LatestFor(accepted, r).Some? ==> LatestFor(accepted, r).value.ref == r
  {
    if accepted != [] {
      LatestIsFor(accepted[..|accepted| - 1], r);
    }
  }

  /** One step keeps a manifest up to date if and only if the worker is not misled. */
  lemma StepKeepsUpToDateExactly(s: State, ev: Event, r: ManifestRef)
    requires SpecStep(s, ev, NextBuffer(s, ev), r) && OrderedFor(s, r) && UpToDate(s, r)
    ensures UpToDate(NextBuffer(s, ev), r) <==> !Misled(s, ev, r)
  {
    var t := NextBuffer(s, ev);
    FindHas(InHand(s), r);
    LatestIsFor(s.accepted, r);
    if ev.PatchStatusAsync? {
      assert t.accepted[..|s.accepted|] == s.accepted;
    } else {
      assert t.accepted == s.accepted && s.dropped <= t.dropped;
      assert ev.SendSucceeds? ==> t.dropped == s.dropped;
    }
  }

  lemma StoredNeverGoesBack(s: State, ev: Event, r: ManifestRef)
    requires SpecStep(s, ev, NextBuffer(s, ev), r) && OrderedFor(s, r)
    ensures var stored, stored' := StoredFor(Now(s), r), StoredFor(Now(NextBuffer(s, ev)), r);
            stored.Some? ==> stored'.Some? && stored.value.id <= stored'.value.id
  {
  }

  lemma {:induction false} RunRefines(events: seq<Event>, r: ManifestRef)
    requires CleanRun(events)
    ensures var s := RunBuffer(events); Sane(s) && AllDistinct(s) && OrderedFor(s, r)
  {
    if events != [] {
      var s, ev := RunBuffer(events[..|events| - 1]), events[|events| - 1];
      RunRefines(events[..|events| - 1], r);
      NextKeepsSane(s, ev);
      NextKeepsDistinct(s, ev);
      Refines(s, ev, r);
    }
  }

  /** In every run with clean failures each step is a step of the map from manifest to latest update, what
      is stored never goes back, and a manifest stays up to date if and only if the worker is not misled
      by the version it read. */
  lemma {:induction false} BufferIsLatestMap(events: seq<Event>, ev: Event, r: ManifestRef)
    requires CleanRun(events) && CleanFailure(RunBuffer(events), ev)
    ensures var s := RunBuffer(events);
            var t := NextBuffer(s, ev);
            && SpecStep(s, ev, t, r)
            && (StoredFor(Now(s), r).Some? ==> StoredFor(Now(t), r).Some? && StoredFor(Now(s), r).value.id <= StoredFor(Now(t), r).value.id)
            && (UpToDate(s, r) ==> (UpToDate(t, r) <==> !Misled(s, ev, r)))
  {
    var s := RunBuffer(events);
    RunRefines(events, r);
    Refines(s, ev, r);
    StoredNeverGoesBack(s, ev, r);
    if UpToDate(s, r) {
      StepKeepsUpToDateExactly(s, ev, r);
    }
  }

  /** The manifest is up to date at every moment of the run. */
  ghost predicate AlwaysUpToDate(events: seq<Event>, r: ManifestRef) {
    UpToDate(RunBuffer(events), r) && (events == [] || AlwaysUpToDate(events[..|events| - 1], r))
  }

  predicate NeverMisled(events: seq<Event>, r: ManifestRef) {
    events == [] ||
    (NeverMisled(events[..|events| - 1], r) && !Misled(RunBuffer(events[..|events| - 1]), events[|events| - 1], r))
  }

  /** In a run with clean failures a manifest is up to date throughout if and only if the worker is never
      misled about it. */
  lemma {:induction false} UpToDateExactly(events: seq<Event>, r: ManifestRef)
    requires CleanRun(events)
    ensures AlwaysUpToDate(events, r) <==> NeverMisled(events, r)
  {
    if events != [] {
      var before := events[..|events| - 1];
      UpToDateExactly(before, r);
      BufferIsLatestMap(before, events[|events| - 1], r);
      if AlwaysUpToDate(before, r) {
        assert UpToDate(RunBuffer(before), r);
      }
    }
  }

  // ---------- The records as the status list of a slice ----------

  /** The status list of slice `k` with `n` manifests. */
  function StatusOf(store: Store, k: Key, n: nat): (status: seq<ResourceState>)
    ensures |status| == n && forall i :: 0 <= i < n ==> status[i] == StateIn(store, ManifestRef(k, i))
  {
    seq(n, i => if i >= 0 then StateIn(store, ManifestRef(k, i)) else BLANK_STATE)
  }

  function Targeted(batch: seq<Update>): (updates: seq<S.StatusUpdate>)
    ensures |updates| == |batch| && forall i :: 0 <= i < |batch| ==> updates[i] == S.StatusUpdate(batch[i].ref.index, batch[i].wish)
  {
    seq(|batch|, i requires 0 <= i < |batch| => S.StatusUpdate(batch[i].ref.index, batch[i].wish))
  }

  /** Applying a batch to the records is sending its patches to the server. */
  lemma {:induction false} BatchIsPatches(seen: Store, store: Store, batch: seq<Update>, k: Key, n: nat)
    requires forall i :: 0 <= i < |batch| ==> batch[i].ref.slice == k && batch[i].ref.index < n
    ensures S.AfterBatch(StatusOf(seen, k, n), StatusOf(store, k, n), Targeted(batch)) == Some(StatusOf(ApplyBatch(seen, store, batch), k, n))
  {
    if batch == [] {
      assert Targeted(batch) == [];
    } else {
      var m := |batch| - 1;
      var rest, u := batch[..m], batch[m];
      BatchIsPatches(seen, store, rest, k, n);
      assert Targeted(batch) == Targeted(rest) + [S.StatusUpdate(u.ref.index, u.wish)];
      S.BatchSnoc(StatusOf(seen, k, n), StatusOf(store, k, n), Targeted(rest), S.StatusUpdate(u.ref.index, u.wish));
      var after := StatusOf(ApplyBatch(seen, store, rest), k, n);
      if !Skips(seen, u) {
        assert StatusOf(ApplyBatch(seen, store, batch), k, n) == after[u.ref.index := Wanted(u.wish)];
      }
    }
  }
}
