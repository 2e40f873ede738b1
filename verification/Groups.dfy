/** The index by readiness group: a search tree, and the lookup of a neighbouring group in it. */
module Groups {
  import opened Api

  datatype Tree<V> = Leaf | Node(left: Tree<V>, key: int, value: V, right: Tree<V>)

  function Keys<V>(t: Tree<V>): set<int> {
    match t
    case Leaf => {}
    case Node(l, k, _, r) => Keys(l) + {k} + Keys(r)
  }

  ghost predicate Search<V>(t: Tree<V>) {
    match t
    case Leaf => true
    case Node(l, k, _, r) => Search(l) && Search(r) && (forall x <- Keys(l) :: x < k) && (forall x <- Keys(r) :: k < x)
  }

  function Get<V>(t: Tree<V>, k: int): Option<V> {
    match t
    case Leaf => None
    case Node(l, x, v, r) => if k == x then Some(v) else if k < x then Get(l, k) else Get(r, k)
  }

  /** Insertion without rebalancing; the lookup below is studied for every shape. */
  function Put<V>(t: Tree<V>, k: int, v: V): Tree<V> {
    match t
    case Leaf => Node(Leaf, k, v, Leaf)
    case Node(l, x, w, r) =>
      if k == x then Node(l, x, v, r) else if k < x then Node(Put(l, k, v), x, w, r) else Node(l, x, w, Put(r, k, v))
  }

  lemma {:induction false} PutIsUpdate<V>(t: Tree<V>, k: int, v: V, x: int)
    requires Search(t)
    ensures Search(Put(t, k, v)) && Keys(Put(t, k, v)) == Keys(t) + {k}
    ensures Get(Put(t, k, v), x) == if x == k then Some(v) else Get(t, x)
  {
    match t
    case Leaf =>
    case Node(l, y, _, r) =>
      if k < y {
        PutIsUpdate(l, k, v, x);
      } else if y < k {
        PutIsUpdate(r, k, v, x);
      }
  }

  lemma {:induction false} GetFindsKeys<V>(t: Tree<V>, k: int)
    requires Search(t)
    ensures Get(t, k).Some? <==> k in Keys(t)
  {
    match t
    case Leaf =>
    case Node(l, x, _, r) =>
      GetFindsKeys(l, k);
      GetFindsKeys(r, k);
  }

  // ---------- Lookups ----------

  /** The node with this key. */
  function GetNode<V>(t: Tree<V>, k: int): Tree<V> {
    match t
    case Leaf => Leaf
    case Node(l, x, _, r) => if k == x then t else if k < x then GetNode(l, k) else GetNode(r, k)
  }

  /** The node with the smallest key that is at least `k`. */
  function Ceiling<V>(t: Tree<V>, k: int): Tree<V> {
    match t
    case Leaf => Leaf
    case Node(l, x, _, r) =>
      if k == x then t
      else if k < x then var c := Ceiling(l, k); if c.Leaf? then t else c
      else Ceiling(r, k)
  }

  /** The node with the largest key that is at most `k`. */
  function Floor<V>(t: Tree<V>, k: int): Tree<V> {
    match t
    case Leaf => Leaf
    case Node(l, x, _, r) =>
      if k == x then t
      else if k > x then var f := Floor(r, k); if f.Leaf? then t else f
      else Floor(l, k)
  }

  /** The node whose resources `RangeByReadinessGroup` returns: a child on the requested side is taken
      as it is, otherwise the tree is searched. */
  function RangeNode<V>(t: Tree<V>, group: int, asc: bool): Tree<V> {
    if group == 0 && !asc then Leaf
    else
      var node := GetNode(t, group);
      if node.Leaf? then Leaf
      else if asc then (if node.right.Node? then node.right else Ceiling(t, group + 1))
      else (if node.left.Node? then node.left else Floor(t, group - 1))
  }

  function RangeByGroup<V>(t: Tree<V>, group: int, asc: bool): Option<V> {
    var n := RangeNode(t, group, asc);
    if n.Node? then Some(n.value) else None
  }

  /** `k` lies strictly on the requested side of `group`. */
  predicate Beyond(k: int, group: int, asc: bool) {
    if asc then k > group else k < group
  }

  /** `k` is the neighbour of `group` on the requested side. */
  ghost predicate Nearest<V>(t: Tree<V>, k: int, group: int, asc: bool) {
    k in Keys(t) && Beyond(k, group, asc) && forall x <- Keys(t) :: Beyond(x, group, asc) ==> x == k || Beyond(x, k, asc)
  }

  lemma {:induction false} GetNodeFinds<V>(t: Tree<V>, k: int)
    requires Search(t)
    ensures GetNode(t, k).Node? <==> k in Keys(t)
    ensures GetNode(t, k).Node? ==> GetNode(t, k).key == k && Search(GetNode(t, k)) && Keys(GetNode(t, k)) <= Keys(t)
    ensures GetNode(t, k).Node? ==> Get(t, k) == Some(GetNode(t, k).value)
  {
    match t
    case Leaf =>
    case Node(l, _, _, r) =>
      GetNodeFinds(l, k);
      GetNodeFinds(r, k);
  }

  lemma {:induction false} CeilingIsNearest<V>(t: Tree<V>, group: int)
    requires Search(t)
    ensures var c := Ceiling(t, group + 1);
            if c.Node? then Nearest(t, c.key, group, true) && Get(t, c.key) == Some(c.value)
            else forall x <- Keys(t) :: x <= group
  {
    match t
    case Leaf =>
    case Node(l, _, _, r) =>
      CeilingIsNearest(l, group);
      CeilingIsNearest(r, group);
  }

  lemma {:induction false} FloorIsNearest<V>(t: Tree<V>, group: int)
    requires Search(t)
    ensures var f := Floor(t, group - 1);
            if f.Node? then Nearest(t, f.key, group, false) && Get(t, f.key) == Some(f.value)
            else forall x <- Keys(t) :: x >= group
  {
    match t
    case Leaf =>
    case Node(l, _, _, r) =>
      FloorIsNearest(l, group);
      FloorIsNearest(r, group);
  }

  /** The subtree below a node on one side holds the keys next to it on that side. */
  lemma {:induction false} SideIsContiguous<V>(t: Tree<V>, group: int, x: int)
    requires Search(t) && group in Keys(t) && x in Keys(t)
    ensures var n := GetNode(t, group);
            && n.Node?
            && (x > group && x !in Keys(n.right) ==> forall y <- Keys(n.right) :: y < x)
            && (x < group && x !in Keys(n.left) ==> forall y <- Keys(n.left) :: x < y)
  {
    GetNodeFinds(t, group);
    match t
    case Leaf =>
    case Node(l, k, _, r) =>
      if group < k {
        GetNodeFinds(l, group);
        if x in Keys(l) { SideIsContiguous(l, group, x); }
      } else if group > k {
        GetNodeFinds(r, group);
        if x in Keys(r) { SideIsContiguous(r, group, x); }
      }
  }

  /** The child that the shortcut takes, and the subtree between it and the node. */
  function Child<V>(n: Tree<V>, asc: bool): Tree<V>
    requires n.Node?
  {
    if asc then n.right else n.left
  }

  function Inner<V>(n: Tree<V>, asc: bool): Tree<V>
    requires n.Node? && Child(n, asc).Node?
  {
    if asc then n.right.left else n.left.right
  }

  /** The answer is always from the requested side, and there is none only when that side is empty, or
      when descending from group 0. */
  lemma RangeIsSound<V>(t: Tree<V>, group: int, asc: bool)
    requires Search(t) && group in Keys(t)
    ensures var n := RangeNode(t, group, asc);
            && (n.Node? ==> n.key in Keys(t) && Beyond(n.key, group, asc) && RangeByGroup(t, group, asc) == Get(t, n.key))
            && (n.Leaf? <==> (group == 0 && !asc) || forall x <- Keys(t) :: !Beyond(x, group, asc))
  {
    GetNodeFinds(t, group);
    CeilingIsNearest(t, group);
    FloorIsNearest(t, group);
    var n := GetNode(t, group);
    if n.right.Node? { ChildIsInTree(t, group, n.right.key); }
    if n.left.Node? { ChildIsInTree(t, group, n.left.key); }
  }

  lemma {:induction false} SubtreeGet<V>(t: Tree<V>, group: int, k: int)
    requires Search(t) && group in Keys(t) && k in Keys(GetNode(t, group))
    ensures Get(t, k) == Get(GetNode(t, group), k)
  {
    match t
    case Leaf =>
    case Node(l, x, _, r) =>
      GetNodeFinds(l, group);
      GetNodeFinds(r, group);
      if group < x {
        SubtreeGet(l, group, k);
      } else if group > x {
        SubtreeGet(r, group, k);
      }
  }

  lemma ChildIsInTree<V>(t: Tree<V>, group: int, k: int)
    requires Search(t) && group in Keys(t) && GetNode(t, group).Node?
    requires var n := GetNode(t, group); (n.right.Node? && k == n.right.key) || (n.left.Node? && k == n.left.key)
    ensures k in Keys(t)
    ensures var n := GetNode(t, group); Get(t, k) == if n.right.Node? && k == n.right.key then Some(n.right.value) else Some(n.left.value)
  {
    GetNodeFinds(t, group);
    SubtreeGet(t, group, k);
  }

  /** The answer is the nearest group exactly when the search path is taken or the child has no inner
      subtree. */
  lemma RangeIsNearestExactly<V>(t: Tree<V>, group: int, asc: bool)
    requires Search(t) && group in Keys(t) && RangeNode(t, group, asc).Node?
    ensures GetNode(t, group).Node?
    ensures var n := GetNode(t, group);
            Nearest(t, RangeNode(t, group, asc).key, group, asc) <==> Child(n, asc).Leaf? || Inner(n, asc).Leaf?
  {
    GetNodeFinds(t, group);
    CeilingIsNearest(t, group);
    FloorIsNearest(t, group);
    var n := GetNode(t, group);
    if Child(n, asc).Node? {
      var child, inner := Child(n, asc), Inner(n, asc);
      var c := child.key;
      assert Keys(n) == Keys(n.left) + {group} + Keys(n.right);
      assert Keys(child) == Keys(child.left) + {c} + Keys(child.right) && Search(child);
      if inner.Node? {
        var x := inner.key;
        assert x in Keys(inner);
        assert Beyond(x, group, asc) && x != c && !Beyond(x, c, asc);
      } else {
        assert c in Keys(child) && Keys(inner) == {};
        forall x <- Keys(t) | Beyond(x, group, asc) ensures x == c || Beyond(x, c, asc) {
          SideIsContiguous(t, group, x);
        }
      }
    }
  }

  /** The shortcut can miss: in the tree that a red-black tree builds from 4, 2, 5, 1, 3 the group before
      4 is 3, but 2 is returned. */
  lemma ShortcutSkipsGroup()
    ensures var t := Put(Put(Put(Put(Put(Leaf, 4, "four"), 2, "two"), 5, "five"), 1, "one"), 3, "three");
            && RangeNode(t, 4, false).Node? && RangeNode(t, 4, false).key == 2
            && 3 in Keys(t) && !Nearest(t, 2, 4, false)
  {
    var t1 := Put(Put(Leaf, 4, "four"), 2, "two");
    var t := Put(Put(Put(t1, 5, "five"), 1, "one"), 3, "three");
    assert t1 == Node(Node(Leaf, 2, "two", Leaf), 4, "four", Leaf);
    assert t == Node(Node(Node(Leaf, 1, "one", Leaf), 2, "two", Node(Leaf, 3, "three", Leaf)), 4, "four", Node(Leaf, 5, "five", Leaf));
    assert 3 in Keys(t) && Beyond(3, 4, false);
  }
}
