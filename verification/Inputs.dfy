/** Input revisions: how they are recorded and pruned in the composition's status, and how two lists
    of them are compared. */
module Inputs {
  import opened Api

  // ---------- Keys ----------

  /** The order of strings in the source language. */
  predicate KeyLess(a: string, b: string) {
    b != [] && (a == [] || a[0] < b[0] || (a[0] == b[0] && KeyLess(a[1..], b[1..])))
  }

  lemma {:induction false} KeyLessIsTotal(a: string, b: string)
    ensures a == b || KeyLess(a, b) || KeyLess(b, a)
    ensures !(KeyLess(a, b) && KeyLess(b, a))
    ensures a == b ==> !KeyLess(a, b)
  {
    if a != [] && b != [] && a[0] == b[0] {
      KeyLessIsTotal(a[1..], b[1..]);
      assert a == [a[0]] + a[1..] && b == [b[0]] + b[1..];
    }
  }

  lemma {:induction false} KeyLessIsTransitive(a: string, b: string, c: string)
    requires KeyLess(a, b) && KeyLess(b, c)
    ensures KeyLess(a, c)
  {
    if a != [] && a[0] == b[0] && b[0] == c[0] {
      KeyLessIsTransitive(a[1..], b[1..], c[1..]);
    }
  }

  function Keys(s: seq<InputRevision>): set<string> {
    set i | 0 <= i < |s| :: s[i].key
  }

  predicate DistinctKeys(s: seq<InputRevision>) {
    forall i, j :: 0 <= i < j < |s| ==> s[i].key != s[j].key
  }

  // ---------- Recording and pruning ----------

  /** The first entry with a key; the length of the list when there is none. */
  function IndexOfKey(s: seq<InputRevision>, key: string): (i: nat)
    ensures i <= |s|
    ensures i < |s| ==> s[i].key == key
    ensures forall j :: 0 <= j < i ==> s[j].key != key
  {
    if s == [] || s[0].key == key then 0 else 1 + IndexOfKey(s[1..], key)
  }

  /** Records a revision: replaces the first entry with its key, or appends one. */
  function WithRevision(s: seq<InputRevision>, r: InputRevision): seq<InputRevision> {
    var i := IndexOfKey(s, r.key);
    if i < |s| then s[i := r] else s + [r]
  }

  method SetInputRevisions(s: seq<InputRevision>, r: InputRevision)
    returns (t: seq<InputRevision>, changed: bool)
    ensures t == WithRevision(s, r)
    ensures changed <==> t != s
  {
    for i := 0 to |s|
      invariant forall j :: 0 <= j < i ==> s[j].key != r.key
    {
      if s[i].key == r.key {
        assert IndexOfKey(s, r.key) == i;
        if s[i] == r {
          return s, false;
        }
        return s[i := r], true;
      }
    }
    assert IndexOfKey(s, r.key) == |s|;
    t, changed := s + [r], true;
  }

  /** The first entry whose key is no longer bound; the length of the list when there is none. */
  function FirstUnbound(s: seq<InputRevision>, bindings: seq<string>): (i: nat)
    ensures i <= |s|
    ensures i < |s| ==> s[i].key !in bindings
    ensures forall j :: 0 <= j < i ==> s[j].key in bindings
  {
    if s == [] || s[0].key !in bindings then 0 else 1 + FirstUnbound(s[1..], bindings)
  }

  function Pruned(s: seq<InputRevision>, bindings: seq<string>): seq<InputRevision> {
    var i := FirstUnbound(s, bindings);
    if i == |s| then s else s[..i] + s[i + 1..]
  }

  method PruneOne(s: seq<InputRevision>, bindings: seq<string>) returns (t: seq<InputRevision>)
    ensures t == Pruned(s, bindings)
  {
    for i := 0 to |s|
      invariant forall j :: 0 <= j < i ==> s[j].key in bindings
    {
      if s[i].key !in bindings {
        assert FirstUnbound(s, bindings) == i;
        return s[..i] + s[i + 1..];
      }
    }
    assert FirstUnbound(s, bindings) == |s|;
    t := s;
  }

  /** Recording keeps keys distinct, sets its own key and leaves every other entry alone. */
  lemma RecordingKeepsKeysDistinct(s: seq<InputRevision>, r: InputRevision)
    requires DistinctKeys(s)
    ensures DistinctKeys(WithRevision(s, r))
    ensures r in WithRevision(s, r)
    ensures forall x: InputRevision :: x.key != r.key ==> (x in WithRevision(s, r) <==> x in s)
    ensures forall x: InputRevision :: x.key == r.key && x in WithRevision(s, r) ==> x == r
  {
    var i, t := IndexOfKey(s, r.key), WithRevision(s, r);
    assert t[i] == r;
    forall x | x in s && x.key != r.key ensures x in t {
      var j :| 0 <= j < |s| && s[j] == x;
      assert t[j] == x;
    }
  }

  /** A prune step keeps every bound entry, adds none, and removes one unbound entry if there is any. */
  lemma PruneIsExact(s: seq<InputRevision>, bindings: seq<string>)
    ensures forall x :: x in s && x.key in bindings ==> x in Pruned(s, bindings)
    ensures forall x :: x in Pruned(s, bindings) ==> x in s
    ensures |Pruned(s, bindings)| == |s| - if (exists i :: 0 <= i < |s| && s[i].key !in bindings) then 1 else 0
  {
    var i, t := FirstUnbound(s, bindings), Pruned(s, bindings);
    if i < |s| {
      forall x | x in s && x.key in bindings ensures x in t {
        var k :| 0 <= k < |s| && s[k] == x;
        assert k < i ==> t[k] == x;
        assert k > i ==> t[k - 1] == x;
      }
    }
  }

  datatype InputStep = Record(revision: InputRevision) | Prune(bindings: seq<string>)

  function AfterSteps(steps: seq<InputStep>): seq<InputRevision> {
    if steps == [] then []
    else
      var s := AfterSteps(steps[..|steps| - 1]);
      match steps[|steps| - 1]
      case Record(r) => WithRevision(s, r)
      case Prune(bindings) => Pruned(s, bindings)
  }

  /** Any run of watch and prune steps keeps the keys distinct. */
  lemma {:induction false} KeysStayDistinct(steps: seq<InputStep>)
    ensures DistinctKeys(AfterSteps(steps))
  {
    if steps != [] {
      var before := steps[..|steps| - 1];
      KeysStayDistinct(before);
      match steps[|steps| - 1]
      case Record(r) => RecordingKeepsKeysDistinct(AfterSteps(before), r);
      case Prune(bindings) =>
    }
  }

  // ---------- Comparison ----------

  predicate RevisionEqual(a: InputRevision, b: InputRevision) {
    a.key == b.key &&
    if a.revision.Some? || b.revision.Some? then a.revision == b.revision
    else a.resourceVersion == b.resourceVersion
  }

  /** The last ref with a key decides whether the key is deferred. */
  predicate Deferred(refs: seq<Ref>, key: string) {
    refs != [] &&
    var last := refs[|refs| - 1];
    if last.key == key then last.defer else Deferred(refs[..|refs| - 1], key)
  }

  predicate SortedByKey(s: seq<InputRevision>) {
    forall i, j :: 0 <= i < j < |s| ==> !KeyLess(s[j].key, s[i].key)
  }

  function InsertByKey(r: InputRevision, s: seq<InputRevision>): seq<InputRevision> {
    if s == [] || !KeyLess(s[0].key, r.key) then [r] + s else [s[0]] + InsertByKey(r, s[1..])
  }

  /** Stands for the library sort. */
  function SortByKey(s: seq<InputRevision>): seq<InputRevision> {
    if s == [] then [] else InsertByKey(s[0], SortByKey(s[1..]))
  }

  lemma {:induction false} InsertAdds(r: InputRevision, s: seq<InputRevision>)
    ensures multiset(InsertByKey(r, s)) == multiset(s) + multiset{r}
  {
    if s != [] && KeyLess(s[0].key, r.key) {
      InsertAdds(r, s[1..]);
      assert s == [s[0]] + s[1..];
    }
  }

  /** What is not below the head of a sorted list is not below the rest. */
  lemma HeadIsLeast(r: InputRevision, s: seq<InputRevision>, j: nat)
    requires SortedByKey(s) && j < |s| && !KeyLess(s[0].key, r.key)
    ensures !KeyLess(s[j].key, r.key)
  {
    if KeyLess(s[j].key, r.key) && 0 < j {
      KeyLessIsTotal(s[0].key, s[j].key);
      if s[0].key != s[j].key {
        KeyLessIsTransitive(s[0].key, s[j].key, r.key);
      }
    }
  }

  lemma {:induction false} InsertSorts(r: InputRevision, s: seq<InputRevision>)
    requires SortedByKey(s)
    ensures SortedByKey(InsertByKey(r, s))
  {
    if s == [] || !KeyLess(s[0].key, r.key) {
      forall j | 0 <= j < |s| ensures !KeyLess(s[j].key, r.key) { HeadIsLeast(r, s, j); }
    } else {
      InsertSorts(r, s[1..]);
      InsertAdds(r, s[1..]);
      var t := InsertByKey(r, s[1..]);
      KeyLessIsTotal(s[0].key, r.key);
      forall j | 0 <= j < |t| ensures !KeyLess(t[j].key, s[0].key) {
        assert t[j] in multiset(t);
        assert t[j] == r || t[j] in s[1..];
      }
    }
  }

  lemma {:induction false} SortSorts(s: seq<InputRevision>)
    ensures multiset(SortByKey(s)) == multiset(s) && |SortByKey(s)| == |s|
    ensures SortedByKey(SortByKey(s))
  {
    if s != [] {
      SortSorts(s[1..]);
      InsertAdds(s[0], SortByKey(s[1..]));
      InsertSorts(s[0], SortByKey(s[1..]));
      assert s == [s[0]] + s[1..];
    }
    assert |multiset(SortByKey(s))| == |multiset(s)|;
  }

  lemma SortKeepsLength(s: seq<InputRevision>)
    ensures |SortByKey(s)| == |s|
  {
    SortSorts(s);
  }

  /** The comparison at one position of the sorted lists. */
  predicate EntryEqual(refs: seq<Ref>, a: InputRevision, b: InputRevision) {
    Deferred(refs, a.key) || RevisionEqual(a, b)
  }

  /** What the controller's comparison computes: entry by entry over the sorted lists, skipping the
      positions whose key, in the first list, is deferred. */
  predicate RevisionsEqual(refs: seq<Ref>, a: seq<InputRevision>, b: seq<InputRevision>) {
    |a| == |b| &&
    var x, y := SortByKey(a), SortByKey(b);
    |x| == |y| && forall i :: 0 <= i < |x| ==> EntryEqual(refs, x[i], y[i])
  }

  method IndexRefs(refs: seq<Ref>) returns (refsByKey: map<string, Ref>)
    ensures forall k :: k in refsByKey && refsByKey[k].defer <==> Deferred(refs, k)
  {
    refsByKey := map[];
    for i := 0 to |refs|
      invariant forall k :: k in refsByKey && refsByKey[k].defer <==> Deferred(refs[..i], k)
    {
      assert refs[..i + 1][..i] == refs[..i];
      refsByKey := refsByKey[refs[i].key := refs[i]];
    }
    assert refs[..|refs|] == refs;
  }

  method InputRevisionsEqual(refs: seq<Ref>, a: seq<InputRevision>, b: seq<InputRevision>) returns (eq: bool)
    ensures eq <==> RevisionsEqual(refs, a, b)
  {
    if |a| != |b| {
      return false;
    }
    var refsByKey := IndexRefs(refs);
    var x, y := SortByKey(a), SortByKey(b);
    SortKeepsLength(a);
    SortKeepsLength(b);
    var equal := 0;
    for i := 0 to |x|
      invariant equal <= i
      invariant equal == i <==> forall j :: 0 <= j < i ==> EntryEqual(refs, x[j], y[j])
    {
      assert x[i].key in refsByKey && refsByKey[x[i].key].defer <==> Deferred(refs, x[i].key);
      if x[i].key in refsByKey && refsByKey[x[i].key].defer {
        equal := equal + 1;
      } else if RevisionEqual(x[i], y[i]) {
        equal := equal + 1;
      }
    }
    eq := equal == |a|;
  }

  /** The reference meaning: the two lists agree, as maps, on every key that is not deferred. */
  ghost predicate AgreeAsMaps(refs: seq<Ref>, a: seq<InputRevision>, b: seq<InputRevision>) {
    forall x, y :: x in a && y in b && x.key == y.key && !Deferred(refs, x.key) ==> SameRevision(x, y)
  }

  /** Both declare the same revision, or neither declares one and the resource versions are the same. */
  predicate SameRevision(x: InputRevision, y: InputRevision) {
    x.revision == y.revision && (x.revision.None? ==> x.resourceVersion == y.resourceVersion)
  }

  /** Ref `i` is the last one with its key. */
  predicate IsLastRef(refs: seq<Ref>, key: string, i: nat) {
    i < |refs| && refs[i].key == key && forall j :: i < j < |refs| ==> refs[j].key != key
  }

  lemma LastRefOfPrefix(refs: seq<Ref>, key: string, i: nat)
    requires refs != [] && refs[|refs| - 1].key != key
    ensures IsLastRef(refs, key, i) <==> IsLastRef(refs[..|refs| - 1], key, i)
  {
  }

  /** A key is deferred if and only if the last ref with that key defers it. */
  lemma {:induction false} DeferredIsLastRef(refs: seq<Ref>, key: string)
    ensures Deferred(refs, key) <==> exists i: nat :: IsLastRef(refs, key, i) && refs[i].defer
  {
    if refs != [] {
      var n := |refs| - 1;
      if refs[n].key == key {
        assert IsLastRef(refs, key, n);
      } else {
        DeferredIsLastRef(refs[..n], key);
        forall i: nat ensures IsLastRef(refs, key, i) <==> IsLastRef(refs[..n], key, i) { LastRefOfPrefix(refs, key, i); }
      }
    }
  }

  predicate StrictlySorted(s: seq<InputRevision>) {
    forall i, j :: 0 <= i < j < |s| ==> KeyLess(s[i].key, s[j].key)
  }

  lemma KeysOfPermutation(s: seq<InputRevision>, t: seq<InputRevision>)
    requires multiset(s) == multiset(t)
    ensures Keys(s) == Keys(t)
    ensures forall x :: x in s <==> x in t
  {
    forall x ensures x in s <==> x in t {
      assert x in s <==> x in multiset(s);
      assert x in t <==> x in multiset(t);
    }
    assert forall i :: 0 <= i < |s| ==> s[i] in t;
    assert forall i :: 0 <= i < |t| ==> t[i] in s;
  }

  lemma DistinctSurvivesSorting(s: seq<InputRevision>)
    requires DistinctKeys(s)
    ensures StrictlySorted(SortByKey(s)) && Keys(SortByKey(s)) == Keys(s)
    ensures forall x :: x in SortByKey(s) <==> x in s
  {
    SortSorts(s);
    var t := SortByKey(s);
    KeysOfPermutation(s, t);
    forall i, j | 0 <= i < j < |t| ensures KeyLess(t[i].key, t[j].key) {
      KeyLessIsTotal(t[i].key, t[j].key);
      if t[i].key == t[j].key {
        assert t[i] in s && t[j] in s;
        assert t[i] == t[j];
        CountTwice(t, i, j);
        var k :| 0 <= k < |s| && s[k] == t[i];
        CountOnce(s, k);
        assert false;
      }
    }
  }

  lemma CountTwice(s: seq<InputRevision>, i: nat, j: nat)
    requires i < j < |s| && s[i] == s[j]
    ensures multiset(s)[s[i]] >= 2
  {
    assert s == s[..i] + [s[i]] + s[i + 1..j] + [s[j]] + s[j + 1..];
  }

  lemma CountOnce(s: seq<InputRevision>, k: nat)
    requires k < |s| && DistinctKeys(s)
    ensures multiset(s)[s[k]] == 1
  {
    assert s == s[..k] + [s[k]] + s[k + 1..];
    assert s[k] !in s[..k] && s[k] !in s[k + 1..];
  }

  /** Two strictly sorted lists over the same keys carry the same key at every position. */
  lemma {:induction false} SortedKeysCoincide(x: seq<InputRevision>, y: seq<InputRevision>)
    requires StrictlySorted(x) && StrictlySorted(y) && Keys(x) == Keys(y)
    ensures |x| == |y| && forall i :: 0 <= i < |x| ==> x[i].key == y[i].key
  {
    assert forall i :: 0 <= i < |x| ==> x[i].key in Keys(x);
    assert forall i :: 0 <= i < |y| ==> y[i].key in Keys(y);
    if x != [] && y != [] {
      assert x[0].key in Keys(y) && y[0].key in Keys(x);
      KeyLessIsTotal(x[0].key, y[0].key);
      assert x[0].key == y[0].key;
      TailKeys(x);
      TailKeys(y);
      SortedKeysCoincide(x[1..], y[1..]);
      forall i | 0 < i < |x| ensures x[i].key == y[i].key {
        assert x[1..][i - 1].key == y[1..][i - 1].key;
      }
    }
  }

  lemma TailKeys(x: seq<InputRevision>)
    requires x != [] && StrictlySorted(x)
    ensures Keys(x[1..]) == Keys(x) - {x[0].key}
  {
    KeyLessIsTotal(x[0].key, x[0].key);
    assert forall i :: 0 <= i < |x| - 1 ==> x[1..][i] == x[i + 1];
    forall k | k in Keys(x) && k != x[0].key ensures k in Keys(x[1..]) {
      var i :| 0 <= i < |x| && x[i].key == k;
      assert x[1..][i - 1].key == k;
    }
  }

  /** Over the same distinct keys, the comparison is agreement as maps on every non-deferred key. */
  lemma ComparisonIsAgreement(refs: seq<Ref>, a: seq<InputRevision>, b: seq<InputRevision>)
    requires DistinctKeys(a) && DistinctKeys(b) && Keys(a) == Keys(b)
    ensures RevisionsEqual(refs, a, b) <==> AgreeAsMaps(refs, a, b)
  {
    DistinctSurvivesSorting(a);
    DistinctSurvivesSorting(b);
    SortSorts(a);
    SortSorts(b);
    var x, y := SortByKey(a), SortByKey(b);
    SortedKeysCoincide(x, y);
    if RevisionsEqual(refs, a, b) {
      forall p, q | p in a && q in b && p.key == q.key && !Deferred(refs, p.key) ensures SameRevision(p, q) {
        assert p in x && q in y;
        var i :| 0 <= i < |x| && x[i] == p;
        var j :| 0 <= j < |y| && y[j] == q;
        KeyLessIsTotal(p.key, q.key);
        assert i == j;
      }
    }
    if AgreeAsMaps(refs, a, b) {
      forall i | 0 <= i < |x| ensures EntryEqual(refs, x[i], y[i]) {
        assert x[i] in a && y[i] in b;
        assert SameRevision(x[i], y[i]) || Deferred(refs, x[i].key);
      }
    }
  }

  /** Hence it is symmetric and does not depend on the order of either list. */
  lemma ComparisonIgnoresOrder(refs: seq<Ref>, a: seq<InputRevision>, b: seq<InputRevision>,
                               c: seq<InputRevision>, d: seq<InputRevision>)
    requires DistinctKeys(a) && DistinctKeys(b) && Keys(a) == Keys(b)
    requires DistinctKeys(c) && multiset(c) == multiset(a)
    requires DistinctKeys(d) && multiset(d) == multiset(b)
    ensures RevisionsEqual(refs, a, b) <==> RevisionsEqual(refs, d, c)
  {
    KeysOfPermutation(a, c);
    KeysOfPermutation(b, d);
    ComparisonIsAgreement(refs, a, b);
    ComparisonIsAgreement(refs, d, c);
  }

  /** Over different keys the comparison is not even symmetric: a deferred key hides whatever
      stands at its position in the other list. */
  lemma DeferredKeyHidesForeignKey()
    ensures var refs, a, b := [Ref("x", true)], [InputRevision("x", "1", None, None)], [InputRevision("y", "1", None, None)];
            RevisionsEqual(refs, a, b) && !RevisionsEqual(refs, b, a)
  {
    var refs, a, b := [Ref("x", true)], [InputRevision("x", "1", None, None)], [InputRevision("y", "1", None, None)];
    assert SortByKey(a) == a && SortByKey(b) == b;
    assert Deferred(refs, "x");
    assert !Deferred(refs, "y") by { assert refs[..0] == []; }
    assert b[0].key == "y" && a[0].key == "x";
    assert !RevisionEqual(b[0], a[0]);
  }
}
