/** core/iptree.go: a search tree of disjoint IPv4 intervals. The AVL tree of the gods library is
    any binary search tree whose Put and Remove meet the ordered-map contracts below; nothing that
    follows depends on the shape the tree takes. */
module IPTreeModel {
  import opened Basics
  import opened IPRanges

  datatype Tree<+V> =
    | Leaf
    | Node(left: Tree<V>, key: Addr, value: Range<V>, right: Tree<V>)

  ghost function Model<V>(t: Tree<V>): Ranges<V> {
    match t
    case Leaf => map[]
    case Node(l, k, v, r) => (Model(l) + Model(r))[k := v]
  }

  ghost predicate Bst<V>(t: Tree<V>) {
    match t
    case Leaf => true
    case Node(l, k, _, r) =>
      && Bst(l) && Bst(r)
      && (forall j :: j in Model(l) ==> j < k)
      && (forall j :: j in Model(r) ==> k < j)
  }

  function Insert<V>(t: Tree<V>, k: Addr, v: Range<V>): Tree<V> {
    match t
    case Leaf => Node(Leaf, k, v, Leaf)
    case Node(left, key, value, right) =>
      if k < key then Node(Insert(left, k, v), key, value, right)
      else if key < k then Node(left, key, value, Insert(right, k, v))
      else Node(left, k, v, right)
  }

  lemma {:induction false} InsertModel<V>(t: Tree<V>, k: Addr, v: Range<V>)
    requires Bst(t)
    ensures Model(Insert(t, k, v)) == Model(t)[k := v]
  {
    if t.Node? {
      if k < t.key {
        InsertModel(t.left, k, v);
        assert k !in Model(t.right);
      } else if t.key < k {
        InsertModel(t.right, k, v);
      }
    }
  }

  lemma {:induction false} InsertBst<V>(t: Tree<V>, k: Addr, v: Range<V>)
    requires Bst(t)
    ensures Bst(Insert(t, k, v))
  {
    if t.Node? {
      if k < t.key {
        InsertModel(t.left, k, v);
        InsertBst(t.left, k, v);
      } else if t.key < k {
        InsertModel(t.right, k, v);
        InsertBst(t.right, k, v);
      }
    }
  }

  function Join<V>(l: Tree<V>, r: Tree<V>): Tree<V> {
    match r
    case Leaf => l
    case Node(rl, k, v, rr) => Node(Join(l, rl), k, v, rr)
  }

  ghost predicate Before<V>(l: Tree<V>, r: Tree<V>) {
    forall i, j :: i in Model(l) && j in Model(r) ==> i < j
  }

  lemma {:induction false} JoinModel<V>(l: Tree<V>, r: Tree<V>)
    ensures Model(Join(l, r)) == Model(l) + Model(r)
  {
    if r.Node? {
      JoinModel(l, r.left);
    }
  }

  lemma {:induction false} JoinBst<V>(l: Tree<V>, r: Tree<V>)
    requires Bst(l) && Bst(r) && Before(l, r)
    ensures Bst(Join(l, r))
  {
    if r.Node? {
      assert r.key in Model(r) && forall j :: j in Model(r.left) ==> j in Model(r);
      JoinBst(l, r.left);
      JoinModel(l, r.left);
    }
  }

  function Delete<V>(t: Tree<V>, k: Addr): Tree<V> {
    match t
    case Leaf => Leaf
    case Node(left, key, value, right) =>
      if k < key then Node(Delete(left, k), key, value, right)
      else if key < k then Node(left, key, value, Delete(right, k))
      else Join(left, right)
  }

  lemma Without<V>(a: Ranges<V>, b: Ranges<V>, key: Addr, v: Range<V>, k: Addr)
    requires k != key
    ensures ((a - {k}) + (b - {k}))[key := v] == (a + b)[key := v] - {k}
  {}

  lemma {:induction false} DeleteModel<V>(t: Tree<V>, k: Addr)
    requires Bst(t)
    ensures Model(Delete(t, k)) == Model(t) - {k}
  {
    if t.Node? {
      var a, b := Model(t.left), Model(t.right);
      if k < t.key {
        DeleteModel(t.left, k);
        assert b - {k} == b;
        Without(a, b, t.key, t.value, k);
      } else if t.key < k {
        DeleteModel(t.right, k);
        assert a - {k} == a;
        Without(a, b, t.key, t.value, k);
      } else {
        JoinModel(t.left, t.right);
        assert a + b == (a + b)[k := t.value] - {k};
      }
    }
  }

  lemma {:induction false} DeleteBst<V>(t: Tree<V>, k: Addr)
    requires Bst(t)
    ensures Bst(Delete(t, k))
  {
    if t.Node? {
      if k < t.key {
        DeleteModel(t.left, k);
        DeleteBst(t.left, k);
      } else if t.key < k {
        DeleteModel(t.right, k);
        DeleteBst(t.right, k);
      } else {
        JoinBst(t.left, t.right);
      }
    }
  }

  class IPTree<V> {
    var root: Tree<V>

    ghost predicate Valid()
      reads this
    {
      Bst(root) && Disjoint(Model(root))
    }

    ghost function Contents(): Ranges<V>
      reads this
    {
      Model(root)
    }

    /** NewIPTree(""): splitting the empty string gives one empty address, which parses to 0, so the
        new tree holds address 0 with a nil payload. */
    constructor (nil: V)
      ensures Valid() && Contents() == map[0 := Range(0, nil)]
    {
      root := Node(Leaf, 0, Range(0, nil), Leaf);
      new;
      assert Model(Node(Leaf, 0, Range(0, nil), Leaf)) == map[0 := Range(0, nil)];
    }

    // The two mutators of the library.

    method Put(k: Addr, v: Range<V>)
      requires Bst(root)
      modifies this
      ensures Bst(root) && Contents() == old(Contents())[k := v]
    {
      InsertModel(root, k, v);
      InsertBst(root, k, v);
      root := Insert(root, k, v);
    }

    method Remove(k: Addr)
      requires Bst(root)
      modifies this
      ensures Bst(root) && Contents() == old(Contents()) - {k}
    {
      DeleteModel(root, k);
      DeleteBst(root, k);
      root := Delete(root, k);
    }

    method DelIntIP(minIP: Addr, maxIP: Addr)
      requires Valid()
      modifies this
      ensures Valid() && Contents() == Deleted(old(Contents()), minIP)
    {
      Remove(minIP);
    }

    method AddIntIP(minIP: Addr, maxIP: Addr, v: V) returns (ok: bool)
      requires Valid()
      modifies this
      ensures Valid()
      ensures ok <==> minIP <= maxIP
      ensures Contents() == Added(old(Contents()), minIP, maxIP, v)
    {
      if minIP > maxIP {
        return false;
      }
      ghost var m := Contents();
      ghost var removed: set<Addr> := {};
      var newMinIP: Addr, newMaxIP: Addr := minIP, maxIP;
      var cur := root;
      while cur != Leaf
        invariant Valid() && Contents() == m - removed
        invariant Merging(m, minIP, maxIP, removed, newMinIP, newMaxIP)
        invariant OnPath(m, removed, cur, newMinIP, newMaxIP)
        decreases |m - removed|, cur
      {
        var curMinIP: Addr, curMaxIP: Addr := cur.key, cur.value.maxIP;
        PathKey(m, removed, cur, newMinIP, newMaxIP);
        if newMinIP >= curMinIP && newMaxIP <= curMaxIP {
          StopsOnlyAtFirst(m, minIP, maxIP, removed, newMinIP, newMaxIP, curMinIP);
          return true;
        }
        if newMinIP > curMaxIP {
          PathRight(m, removed, cur, newMinIP, newMaxIP);
          cur := cur.right;
        } else if newMaxIP < curMinIP {
          PathLeft(m, removed, cur, newMinIP, newMaxIP);
          cur := cur.left;
        } else {
          MergeOne(m, minIP, maxIP, removed, newMinIP, newMaxIP, curMinIP);
          Remove(curMinIP);
          AfterRemove(m, removed, curMinIP);
          removed := removed + {curMinIP};
          if curMinIP < newMinIP { newMinIP := curMinIP; }
          if curMaxIP > newMaxIP { newMaxIP := curMaxIP; }
          cur := root;
          RootPath(m, removed, cur, newMinIP, newMaxIP);
        }
      }
      MergeComplete(m, minIP, maxIP, removed, newMinIP, newMaxIP, v);
      Put(newMinIP, Range(newMaxIP, v));
      return true;
    }

    method Load(ip: Addr) returns (r: Option<V>)
      requires Valid()
      ensures r == Lookup(Contents(), ip)
    {
      ghost var m := Contents();
      var n := root;
      while n != Leaf
        invariant Bst(n)
        invariant Model(n).Keys <= m.Keys && forall k :: k in Model(n) ==> Model(n)[k] == m[k]
        invariant forall k :: Hits(m, k, ip) ==> k in Model(n)
        decreases n
      {
        assert n.key in Model(n) && m[n.key] == n.value;
        if n.key <= ip <= n.value.maxIP {
          LookupUnique(m, n.key, ip);
          return Some(n.value.v);
        } else if ip < n.key {
          n := n.left;
        } else {
          n := n.right;
        }
      }
      return None;
    }
  }

  // ----- the merge loop of AddIntIP

  /** [a, b] is the hull of [lo, hi] and of the intervals removed so far, all of which met [lo, hi]
      without containing it. */
  ghost predicate Merging<V>(m: Ranges<V>, lo: Addr, hi: Addr, removed: set<Addr>, a: Addr, b: Addr) {
    && lo <= hi
    && removed <= Touched(m, lo, hi)
    && (removed != {} ==> !Inside(m, lo, hi))
    && a <= lo && (a == lo || a in removed)
    && hi <= b && (b == hi || exists k :: k in removed && m[k].maxIP == b)
    && (forall k :: k in removed ==> a <= k && m[k].maxIP <= b)
  }

  /** `cur` is a subtree of what remains, and every remaining interval that meets [a, b] is in it. */
  ghost predicate OnPath<V>(m: Ranges<V>, removed: set<Addr>, cur: Tree<V>, a: Addr, b: Addr) {
    && Bst(cur)
    && (forall k :: k in Model(cur) ==> k in m && k !in removed && Model(cur)[k] == m[k])
    && (forall k :: k in m && k !in removed && Meets(k, m[k].maxIP, a, b) ==> k in Model(cur))
  }

  lemma PathKey<V>(m: Ranges<V>, removed: set<Addr>, cur: Tree<V>, a: Addr, b: Addr)
    requires OnPath(m, removed, cur, a, b) && cur.Node?
    ensures cur.key in m && cur.key !in removed && m[cur.key] == cur.value
  {
    assert cur.key in Model(cur);
  }

  lemma PathRight<V>(m: Ranges<V>, removed: set<Addr>, cur: Tree<V>, a: Addr, b: Addr)
    requires Disjoint(m) && OnPath(m, removed, cur, a, b) && cur.Node? && a > cur.value.maxIP
    ensures OnPath(m, removed, cur.right, a, b)
  {
    PathKey(m, removed, cur, a, b);
    forall k | k in Model(cur.right) ensures k in Model(cur) && Model(cur)[k] == Model(cur.right)[k] {}
    forall k | k in Model(cur.left) ensures k in m && m[k].maxIP < cur.key {
      assert k in Model(cur);
    }
  }

  lemma PathLeft<V>(m: Ranges<V>, removed: set<Addr>, cur: Tree<V>, a: Addr, b: Addr)
    requires Disjoint(m) && OnPath(m, removed, cur, a, b) && cur.Node? && b < cur.key
    ensures OnPath(m, removed, cur.left, a, b)
  {
    forall k | k in Model(cur.left) ensures k in Model(cur) && Model(cur)[k] == Model(cur.left)[k] {
      assert k !in Model(cur.right);
    }
    PathKey(m, removed, cur, a, b);
    assert forall k :: k in Model(cur) <==> k in Model(cur.left) || k in Model(cur.right) || k == cur.key;
  }

  lemma AfterRemove<V>(m: Ranges<V>, removed: set<Addr>, k: Addr)
    requires Disjoint(m) && k in m && k !in removed
    ensures (m - removed) - {k} == m - (removed + {k})
    ensures Disjoint(m - (removed + {k}))
    ensures |m - (removed + {k})| < |m - removed|
  {
    var n, n' := m - removed, m - (removed + {k});
    assert n.Keys == n'.Keys + {k};
  }

  lemma RootPath<V>(m: Ranges<V>, removed: set<Addr>, t: Tree<V>, a: Addr, b: Addr)
    requires Bst(t) && Model(t) == m - removed
    ensures OnPath(m, removed, t, a, b)
  {}

  /** Because the stored intervals are disjoint, growing the hull never makes it meet an interval
      that [lo, hi] did not meet. */
  lemma MergingMeets<V>(m: Ranges<V>, lo: Addr, hi: Addr, removed: set<Addr>, a: Addr, b: Addr, k: Addr)
    requires Disjoint(m) && Merging(m, lo, hi, removed, a, b) && k in m && k !in removed
    ensures Meets(k, m[k].maxIP, a, b) <==> k in Touched(m, lo, hi)
  {
    if hi < k && b != hi {
      var j :| j in removed && m[j].maxIP == b;
      assert j < k;
    }
  }

  /** The early return happens only before anything was removed, so it changes nothing. */
  lemma StopsOnlyAtFirst<V>(m: Ranges<V>, lo: Addr, hi: Addr, removed: set<Addr>, a: Addr, b: Addr, k: Addr)
    requires Disjoint(m) && Merging(m, lo, hi, removed, a, b) && k in m && k !in removed
    requires k <= a && b <= m[k].maxIP
    ensures removed == {} && Inside(m, lo, hi)
  {
    assert forall j :: j in removed ==> j in m && Meets(j, m[j].maxIP, a, b) && j != k;
  }

  lemma MergeOne<V>(m: Ranges<V>, lo: Addr, hi: Addr, removed: set<Addr>, a: Addr, b: Addr, k: Addr)
    requires Disjoint(m) && Merging(m, lo, hi, removed, a, b) && k in m && k !in removed
    requires Meets(k, m[k].maxIP, a, b) && !(k <= a && b <= m[k].maxIP)
    ensures Merging(m, lo, hi, removed + {k}, if k < a then k else a, if m[k].maxIP > b then m[k].maxIP else b)
  {
    MergingMeets(m, lo, hi, removed, a, b, k);
    if removed == {} {
      assert forall j :: j in m && j <= lo && hi <= m[j].maxIP ==> j == k;
    }
  }

  /** At a leaf nothing that remains meets the hull: the loop has removed every interval it had to. */
  lemma MergeComplete<V>(m: Ranges<V>, lo: Addr, hi: Addr, removed: set<Addr>, a: Addr, b: Addr, v: V)
    requires Disjoint(m) && Merging(m, lo, hi, removed, a, b)
    requires forall k :: k in m && k !in removed ==> !Meets(k, m[k].maxIP, a, b)
    ensures (m - removed)[a := Range(b, v)] == Added(m, lo, hi, v)
    ensures Disjoint(Added(m, lo, hi, v))
  {
    forall k | k in Touched(m, lo, hi) ensures k in removed {
      if k !in removed {
        MergingMeets(m, lo, hi, removed, a, b, k);
      }
    }
    assert removed == Touched(m, lo, hi);
    HullFound(m, lo, hi, a, b);
    AddedDisjoint(m, lo, hi, v);
  }

  lemma HullFound<V>(m: Ranges<V>, lo: Addr, hi: Addr, a: Addr, b: Addr)
    requires Merging(m, lo, hi, Touched(m, lo, hi), a, b)
    ensures a == HullLo(m, lo, hi) && b == HullHi(m, lo, hi) && !Inside(m, lo, hi)
  {
    HullEnds(m, lo, hi);
    assert forall k :: k in m && k <= lo && hi <= m[k].maxIP ==> k in Touched(m, lo, hi);
  }
}
