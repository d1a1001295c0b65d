/** Laws of the SD-WAN routing state: over every run of disjoint configurations the interval tree
    routes each address to the node that owns it, whichever path each message took. */
module SdwanLaws {
  import opened Basics
  import opened IPRanges
  import opened Cidr
  import opened SdwanTable

  // ----- the entries of a table

  /** `m` stores the interval and payload of `e`. */
  ghost predicate Holds(m: Ranges<Payload>, e: Step) {
    e.Add? && e.lo in m && m[e.lo] == Range(e.hi, e.v)
  }

  ghost predicate Clear(a: Step, b: Step) {
    a.Add? && b.Add? && !Meets(a.lo, a.hi, b.lo, b.hi)
  }

  ghost predicate ClearAll(ops: seq<Step>) {
    && (forall i :: 0 <= i < |ops| ==> ops[i].Add? && ops[i].lo <= ops[i].hi)
    && (forall i, j :: 0 <= i < j < |ops| ==> Clear(ops[i], ops[j]))
  }

  lemma ClearConcat(a: seq<Step>, b: seq<Step>)
    requires ClearAll(a) && ClearAll(b) && forall x, y :: x in a && y in b ==> Clear(x, y)
    ensures ClearAll(a + b)
  {}

  lemma ClearParts(a: seq<Step>, b: seq<Step>)
    requires ClearAll(a + b)
    ensures ClearAll(a) && ClearAll(b) && forall x, y :: x in a && y in b ==> Clear(x, y)
  {
    var c := a + b;
    assert forall i :: 0 <= i < |a| ==> a[i] == c[i];
    assert forall i :: 0 <= i < |b| ==> b[i] == c[|a| + i];
  }

  lemma ClearPair(ops: seq<Step>, a: Step, b: Step)
    requires ClearAll(ops) && a in ops && b in ops
    ensures Clear(a, b) || a == b
  {
    var i, j :| 0 <= i < |ops| && 0 <= j < |ops| && ops[i] == a && ops[j] == b;
  }

  lemma EntriesDetermine(m: Ranges<Payload>, n: Ranges<Payload>)
    requires forall e :: Holds(m, e) <==> Holds(n, e)
    ensures m == n
  {
    forall k | k in m ensures k in n && m[k] == n[k] {
      assert Holds(m, Add(k, m[k].maxIP, m[k].v));
    }
    forall k | k in n ensures k in m {
      assert Holds(n, Add(k, n[k].maxIP, n[k].v));
    }
  }

  /** Adding an interval that meets nothing stores it as it is. */
  lemma AddClear(m: Ranges<Payload>, op: Step)
    requires Disjoint(m) && op.Add? && op.lo <= op.hi
    requires forall e :: Holds(m, e) ==> Clear(e, op)
    ensures forall e :: Holds(Apply(m, op), e) <==> Holds(m, e) || e == op
  {
    forall k | k in m ensures !Meets(k, m[k].maxIP, op.lo, op.hi) {
      assert Holds(m, Add(k, m[k].maxIP, m[k].v));
    }
    assert Touched(m, op.lo, op.hi) == {};
    assert !Inside(m, op.lo, op.hi);
    HullEnds(m, op.lo, op.hi);
    assert Apply(m, op) == m[op.lo := Range(op.hi, op.v)];
    assert op.lo !in m;
  }

  /** Adding what is stored already changes nothing. */
  lemma AddAgain(m: Ranges<Payload>, op: Step)
    requires Holds(m, op)
    ensures Apply(m, op) == m
  {
    assert op.lo in m && op.hi <= m[op.lo].maxIP;
  }

  lemma {:induction false} AddAllClear(m: Ranges<Payload>, ops: seq<Step>)
    requires Disjoint(m) && ClearAll(ops)
    requires forall e, op :: Holds(m, e) && op in ops ==> Clear(e, op) || e == op
    ensures forall e :: Holds(ApplyAll(m, ops), e) <==> Holds(m, e) || e in ops
  {
    if ops == [] {
    } else {
      var init, op := ops[..|ops| - 1], ops[|ops| - 1];
      ClearParts(init, [op]);
      assert ops == init + [op];
      AddAllClear(m, init);
      RunDisjoint(m, init);
      var n := ApplyAll(m, init);
      if Holds(m, op) {
        AddAgain(n, op);
      } else {
        forall e | Holds(n, e) ensures Clear(e, op) {}
        AddClear(n, op);
      }
    }
  }

  /** An addition leaves an entry alone that it stays clear of or falls inside. */
  ghost predicate Spares(op: Step, e: Step) {
    op.Add? && e.Add? && op.lo <= op.hi && (Clear(e, op) || (e.lo <= op.lo && op.hi <= e.hi))
  }

  lemma SparedOnce(m: Ranges<Payload>, op: Step, e: Step)
    requires Disjoint(m) && Holds(m, e) && Spares(op, e)
    ensures Holds(Apply(m, op), e)
  {
    if Clear(e, op) {
      HullEnds(m, op.lo, op.hi);
      assert e.lo !in Touched(m, op.lo, op.hi) && HullLo(m, op.lo, op.hi) != e.lo;
    } else {
      assert e.lo in m && Inside(m, op.lo, op.hi);
    }
  }

  lemma {:induction false} SparedByAll(m: Ranges<Payload>, ops: seq<Step>, e: Step)
    requires Disjoint(m) && Holds(m, e) && forall op :: op in ops ==> Spares(op, e)
    ensures Holds(ApplyAll(m, ops), e)
  {
    if ops == [] {
    } else {
      SparedByAll(m, ops[..|ops| - 1], e);
      RunDisjoint(m, ops[..|ops| - 1]);
      SparedOnce(ApplyAll(m, ops[..|ops| - 1]), ops[|ops| - 1], e);
    }
  }

  /** Additions that every entry is spared by change no entry and store nothing but themselves. */
  lemma {:induction false} AddAllSpared(m: Ranges<Payload>, ops: seq<Step>)
    requires Disjoint(m) && ClearAll(ops)
    requires forall e, op :: Holds(m, e) && op in ops ==> Spares(op, e)
    ensures forall e :: Holds(ApplyAll(m, ops), e) ==> Holds(m, e) || e in ops
  {
    if ops == [] {
    } else {
      var init, op := ops[..|ops| - 1], ops[|ops| - 1];
      ClearParts(init, [op]);
      assert ops == init + [op];
      AddAllSpared(m, init);
      RunDisjoint(m, init);
      var n := ApplyAll(m, init);
      if !Inside(n, op.lo, op.hi) {
        forall e | Holds(n, e) ensures Clear(e, op) {
          assert Spares(op, e) || Clear(e, op);
          assert e.lo in n;
        }
        AddClear(n, op);
      }
    }
  }

  lemma {:induction false} DelAll(m: Ranges<Payload>, ops: seq<Step>)
    requires forall op :: op in ops ==> op.Del?
    ensures forall e :: Holds(ApplyAll(m, ops), e) <==> Holds(m, e) && Del(e.lo) !in ops
  {
    if ops == [] {
    } else {
      var init, op := ops[..|ops| - 1], ops[|ops| - 1];
      DelAll(m, init);
      assert ops == init + [op];
      assert op in ops && op == Del(op.lo);
    }
  }

  // ----- what one node claims

  /** Every range a node announces: its virtual IP, then each resource that parses. */
  function Claims(n: SDWANNode): seq<Step> {
    [IPOp(n)] + BlockOps(n.resource, n.name)
  }

  function BlockOps(items: seq<Item>, name: string): seq<Step> {
    if items == [] then []
    else
      var x := items[|items| - 1].net;
      BlockOps(items[..|items| - 1], name) + if x.None? then [] else [BlockOp(x.value, name)]
  }

  /** The virtual IPs and the resource blocks of a configuration are pairwise disjoint and leave
      out address 0. */
  ghost predicate WellFormed(nodes: seq<SDWANNode>) {
    && (forall n :: n in nodes ==> ClearAll(Claims(n)))
    && (forall n, c :: n in nodes && c in Claims(n) ==> 0 < c.lo)
    && (forall i, j, c, d :: 0 <= i < j < |nodes| && c in Claims(nodes[i]) && d in Claims(nodes[j]) ==> Clear(c, d))
  }

  /** The claims of a node that init puts in the tree. */
  function Live(env: Env, n: SDWANNode): seq<Step> {
    if n.name == env.local then [] else [IPOp(n)] + ResourceOps(env, n.resource, n.name)
  }

  lemma {:induction false} ResourceOpsSub(env: Env, items: seq<Item>, name: string)
    ensures forall op :: op in ResourceOps(env, items, name) ==> op in BlockOps(items, name)
    ensures forall op :: op in DelResourceOps(env, items) ==>
              op.Del? && exists c :: c in BlockOps(items, name) && c.lo == op.lo
    ensures forall op :: op in BlockOps(items, name) ==> op.Add? && op.v == Some(name)
  {
    if items == [] {
    } else {
      ResourceOpsSub(env, items[..|items| - 1], name);
      var x := items[|items| - 1].net;
      if x.Some? {
        assert BlockOp(x.value, name) in BlockOps(items, name);
      }
    }
  }

  /** What init adds for a node it announced, and what init deletes for it has a claim's lower bound. */
  lemma LiveSub(env: Env, n: SDWANNode)
    ensures forall op :: op in Live(env, n) ==> op in Claims(n)
    ensures forall op :: op in NodeDelOps(env, n) ==> op.Del? && exists c :: c in Claims(n) && c.lo == op.lo
    ensures forall op :: op in Claims(n) ==> op.Add? && op.v == Some(n.name)
  {
    ResourceOpsSub(env, n.resource, n.name);
    assert IPOp(n) in Claims(n);
    assert forall c :: c in BlockOps(n.resource, n.name) ==> c in Claims(n);
  }

  function NodeDelOps(env: Env, n: SDWANNode): seq<Step> {
    [Del(n.ip)] + DelResourceOps(env, n.resource)
  }

  // ----- what deleting a node leaves behind

  /** init routes the block: it is not in this node's LAN and no ping reaches it. */
  predicate Routed(env: Env, b: Cidr4) {
    !InLan(env, b) && !Pinged(env, b)
  }

  /** `n` was given this block in `was`, and now it is in this node's LAN: a deletion skips it. */
  predicate Stale(was: Env, env: Env, n: SDWANNode, it: Item) {
    && n.name != was.local && it in n.resource
    && it.net.Some? && Routed(was, it.net.value) && InLan(env, it.net.value)
  }

  /** Of the blocks that `n` was given in `was`, none has come into this node's LAN in `env`. */
  predicate Removable(was: Env, env: Env, n: SDWANNode) {
    forall it :: it in n.resource ==> !Stale(was, env, n, it)
  }

  lemma {:induction false} ResourceFrom(env: Env, items: seq<Item>, name: string, op: Step)
    requires op in ResourceOps(env, items, name)
    ensures exists it :: it in items && it.net.Some? && Routed(env, it.net.value) && op == BlockOp(it.net.value, name)
  {
    var init, it := items[..|items| - 1], items[|items| - 1];
    assert items == init + [it];
    if op in ResourceOps(env, init, name) {
      ResourceFrom(env, init, name, op);
    }
  }

  lemma {:induction false} BlockDeleted(env: Env, items: seq<Item>, it: Item)
    requires it in items && it.net.Some? && !InLan(env, it.net.value)
    ensures Del(Lo(NetOf(it.net.value))) in DelResourceOps(env, items)
  {
    if it != items[|items| - 1] {
      BlockDeleted(env, items[..|items| - 1], it);
    }
  }

  /** What a node was given and deleting it leaves is a stale block. */
  lemma LeftIsStale(was: Env, env: Env, n: SDWANNode, e: Step)
    requires e in Live(was, n) && Del(e.lo) !in NodeDelOps(env, n)
    ensures exists it :: Stale(was, env, n, it) && e == BlockOp(it.net.value, n.name)
  {
    assert e != IPOp(n);
    ResourceFrom(was, n.resource, n.name, e);
    var it :| it in n.resource && it.net.Some? && Routed(was, it.net.value) && e == BlockOp(it.net.value, n.name);
    if !InLan(env, it.net.value) {
      BlockDeleted(env, n.resource, it);
    }
  }

  lemma {:induction false} BlockMembers(env: Env, items: seq<Item>, name: string, it: Item)
    requires it in items && it.net.Some?
    ensures BlockOp(it.net.value, name) in BlockOps(items, name)
    ensures Routed(env, it.net.value) ==> BlockOp(it.net.value, name) in ResourceOps(env, items, name)
  {
    if it != items[|items| - 1] {
      BlockMembers(env, items[..|items| - 1], name, it);
    }
  }

  /** A block in the LAN is skipped, and no other block of the node has its lower bound. */
  lemma {:induction false} BlockSkipped(env: Env, items: seq<Item>, name: string, it: Item)
    requires ClearAll(BlockOps(items, name)) && it in items && it.net.Some? && InLan(env, it.net.value)
    ensures Del(Lo(NetOf(it.net.value))) !in DelResourceOps(env, items)
  {
    var init, x, b := items[..|items| - 1], items[|items| - 1], BlockOp(it.net.value, name);
    ClearParts(BlockOps(init, name), if x.net.None? then [] else [BlockOp(x.net.value, name)]);
    if x == it {
      ResourceOpsSub(env, init, name);
      assert forall c :: c in BlockOps(init, name) ==> Clear(c, b);
      assert DelResourceOps(env, items) == DelResourceOps(env, init);
    } else {
      BlockMembers(env, init, name, it);
      BlockSkipped(env, init, name, it);
      assert x.net.Some? ==> Clear(b, BlockOp(x.net.value, name));
    }
  }

  lemma BlockStays(env: Env, n: SDWANNode, it: Item)
    requires ClearAll(Claims(n)) && it in n.resource && it.net.Some? && InLan(env, it.net.value)
    ensures Del(Lo(NetOf(it.net.value))) !in NodeDelOps(env, n)
  {
    ClearParts([IPOp(n)], BlockOps(n.resource, n.name));
    BlockSkipped(env, n.resource, n.name, it);
    BlockMembers(env, n.resource, n.name, it);
    assert Clear(IPOp(n), BlockOp(it.net.value, n.name));
  }

  // ----- what a list of nodes claims

  /** Under which circumstances each routed node was added. */
  type Placed = map<SDWANNode, Env>

  ghost predicate LiveIn(at: Placed, nodes: seq<SDWANNode>, op: Step) {
    exists n :: n in nodes && n in at && op in Live(at[n], n)
  }

  lemma {:induction false} DelOpsMembers(env: Env, nodes: seq<SDWANNode>, op: Step)
    ensures op in DelOps(env, nodes) <==> exists n :: n in nodes && op in NodeDelOps(env, n)
  {
    if nodes == [] {
    } else {
      var init, n := nodes[..|nodes| - 1], nodes[|nodes| - 1];
      DelOpsMembers(env, init, op);
      assert nodes == init + [n];
      assert DelOps(env, nodes) == DelOps(env, init) + NodeDelOps(env, n);
    }
  }

  lemma {:induction false} AddIPMembers(env: Env, nodes: seq<SDWANNode>, op: Step)
    ensures op in AddIPOps(env, nodes) <==> exists n :: n in nodes && n.name != env.local && op == IPOp(n)
  {
    if nodes == [] {
    } else {
      AddIPMembers(env, nodes[..|nodes| - 1], op);
      assert nodes == nodes[..|nodes| - 1] + [nodes[|nodes| - 1]];
    }
  }

  lemma {:induction false} AddResourceMembers(env: Env, nodes: seq<SDWANNode>, op: Step)
    ensures op in AddResourceOps(env, nodes) <==>
            exists n :: n in nodes && n.name != env.local && op in ResourceOps(env, n.resource, n.name)
  {
    if nodes == [] {
    } else {
      AddResourceMembers(env, nodes[..|nodes| - 1], op);
      assert nodes == nodes[..|nodes| - 1] + [nodes[|nodes| - 1]];
    }
  }

  lemma AddOpsMembers(env: Env, nodes: seq<SDWANNode>, op: Step)
    ensures op in AddOps(env, nodes) <==> exists n :: n in nodes && op in Live(env, n)
  {
    AddIPMembers(env, nodes, op);
    AddResourceMembers(env, nodes, op);
    assert forall n: SDWANNode :: n.name != env.local ==>
        (op in Live(env, n) <==> op == IPOp(n) || op in ResourceOps(env, n.resource, n.name));
  }

  // ----- the additions of a well formed list never meet

  lemma {:induction false} ResourceOpsClear(env: Env, items: seq<Item>, name: string)
    requires ClearAll(BlockOps(items, name))
    ensures ClearAll(ResourceOps(env, items, name))
  {
    if items == [] {
    } else {
      var init, x := items[..|items| - 1], items[|items| - 1].net;
      ClearParts(BlockOps(init, name), if x.None? then [] else [BlockOp(x.value, name)]);
      ResourceOpsClear(env, init, name);
      ResourceOpsSub(env, init, name);
      if x.Some? {
        ClearConcat(ResourceOps(env, init, name), [BlockOp(x.value, name)]);
      }
    }
  }

  /** Two nodes of a well formed configuration claim nothing in common. */
  lemma ClaimsClear(nodes: seq<SDWANNode>, n: SDWANNode, m: SDWANNode, c: Step, d: Step)
    requires WellFormed(nodes) && n in nodes && m in nodes && c in Claims(n) && d in Claims(m) && n != m
    ensures Clear(c, d)
  {
    var i :| 0 <= i < |nodes| && nodes[i] == n;
    var j :| 0 <= j < |nodes| && nodes[j] == m;
    if j < i {
      assert Clear(d, c);
    }
  }

  /** No node occurs twice in it. */
  lemma LastIsNew(nodes: seq<SDWANNode>)
    requires WellFormed(nodes) && nodes != []
    ensures WellFormed(nodes[..|nodes| - 1]) && nodes[|nodes| - 1] !in nodes[..|nodes| - 1]
  {
    var init, n := nodes[..|nodes| - 1], nodes[|nodes| - 1];
    assert forall i :: 0 <= i < |init| ==> init[i] == nodes[i];
    assert IPOp(n) in Claims(n) && !Clear(IPOp(n), IPOp(n));
  }

  lemma {:induction false} AddIPOpsClear(env: Env, nodes: seq<SDWANNode>)
    requires WellFormed(nodes)
    ensures ClearAll(AddIPOps(env, nodes))
  {
    if nodes == [] {
    } else {
      var init, n := nodes[..|nodes| - 1], nodes[|nodes| - 1];
      LastIsNew(nodes);
      AddIPOpsClear(env, init);
      forall op | op in AddIPOps(env, init) ensures Clear(op, IPOp(n)) {
        AddIPMembers(env, init, op);
        var m :| m in init && op == IPOp(m);
        ClaimsClear(nodes, m, n, IPOp(m), IPOp(n));
      }
      ClearConcat(AddIPOps(env, init), [IPOp(n)]);
    }
  }

  lemma {:induction false} AddResourceOpsClear(env: Env, nodes: seq<SDWANNode>)
    requires WellFormed(nodes)
    ensures ClearAll(AddResourceOps(env, nodes))
  {
    if nodes == [] {
    } else {
      var init, n := nodes[..|nodes| - 1], nodes[|nodes| - 1];
      LastIsNew(nodes);
      AddResourceOpsClear(env, init);
      var ops := ResourceOps(env, n.resource, n.name);
      NodeResourcesClear(env, n);
      forall op, c | op in AddResourceOps(env, init) && c in ops ensures Clear(op, c) {
        AddResourceMembers(env, init, op);
        var m :| m in init && m.name != env.local && op in ResourceOps(env, m.resource, m.name);
        NodeResourcesSub(env, m);
        NodeResourcesSub(env, n);
        ClaimsClear(nodes, m, n, op, c);
      }
      ClearConcat(AddResourceOps(env, init), ops);
    }
  }

  lemma NodeResourcesSub(env: Env, n: SDWANNode)
    ensures forall op :: op in ResourceOps(env, n.resource, n.name) ==> op in Claims(n)
  {
    ResourceOpsSub(env, n.resource, n.name);
    assert forall c :: c in BlockOps(n.resource, n.name) ==> c in Claims(n);
  }

  lemma NodeResourcesClear(env: Env, n: SDWANNode)
    requires ClearAll(Claims(n))
    ensures ClearAll(ResourceOps(env, n.resource, n.name))
    ensures forall op :: op in ResourceOps(env, n.resource, n.name) ==> Clear(IPOp(n), op)
  {
    ClearParts([IPOp(n)], BlockOps(n.resource, n.name));
    ResourceOpsClear(env, n.resource, n.name);
    ResourceOpsSub(env, n.resource, n.name);
  }

  lemma AddOpsClear(env: Env, nodes: seq<SDWANNode>)
    requires WellFormed(nodes)
    ensures ClearAll(AddOps(env, nodes))
  {
    AddIPOpsClear(env, nodes);
    AddResourceOpsClear(env, nodes);
    forall x, y | x in AddIPOps(env, nodes) && y in AddResourceOps(env, nodes) ensures Clear(x, y) {
      AddIPMembers(env, nodes, x);
      AddResourceMembers(env, nodes, y);
      var n :| n in nodes && n.name != env.local && x == IPOp(n);
      var m :| m in nodes && m.name != env.local && y in ResourceOps(env, m.resource, m.name);
      NodeResourcesSub(env, m);
      NodeResourcesClear(env, n);
      if n != m {
        ClaimsClear(nodes, n, m, x, y);
      }
    }
    ClearConcat(AddIPOps(env, nodes), AddResourceOps(env, nodes));
  }

  // ----- the diff

  lemma {:induction false} ChangedMembers(xs: seq<SDWANNode>, ys: seq<SDWANNode>, keep: bool, n: SDWANNode)
    ensures n in Changed(xs, ys, keep) <==> n in xs && !(keep && n in ys)
  {
    if xs == [] {
    } else {
      ChangedMembers(xs[..|xs| - 1], ys, keep, n);
      assert xs == xs[..|xs| - 1] + [xs[|xs| - 1]];
    }
  }

  /** Something makes setSDWAN redo every node: the mode, the centre, or what this node offers. */
  ghost predicate Redone(local: string, o: SDWANInfo, s: SDWANInfo) {
    o.mode != s.mode || o.centralNode != s.centralNode || !SameOwn(local, o.nodes, s.nodes)
  }

  lemma KeepExact(local: string, o: SDWANInfo, s: SDWANInfo)
    ensures MayKeep(local, o, s) <==> !Redone(local, o, s)
  {
    OwnResourceIs(o.nodes, local, GetResourceByNodeName(o.nodes, local));
    OwnResourceIs(s.nodes, local, GetResourceByNodeName(o.nodes, local));
    if r :| OwnResource(o.nodes, local, r) && OwnResource(s.nodes, local, r) {
      OwnResourceIs(o.nodes, local, r);
      OwnResourceIs(s.nodes, local, r);
    }
  }

  /** Both sides of the diff: a node is deleted when it is not in the new list or everything is redone, and
      added when it is not in the old list or everything is redone. */
  lemma DiffExact(local: string, o: SDWANInfo, s: SDWANInfo, n: SDWANNode)
    ensures var keep := MayKeep(local, o, s);
            && (n in Changed(o.nodes, s.nodes, keep) <==> n in o.nodes && (n !in s.nodes || Redone(local, o, s)))
            && (n in Changed(s.nodes, o.nodes, keep) <==> n in s.nodes && (n !in o.nodes || Redone(local, o, s)))
  {
    var keep := MayKeep(local, o, s);
    KeepExact(local, o, s);
    ChangedMembers(o.nodes, s.nodes, keep, n);
    ChangedMembers(s.nodes, o.nodes, keep, n);
  }

  lemma {:induction false} ChangedWellFormed(xs: seq<SDWANNode>, ys: seq<SDWANNode>, keep: bool)
    requires WellFormed(xs)
    ensures WellFormed(Changed(xs, ys, keep))
  {
    if xs == [] {
    } else {
      var init, x := xs[..|xs| - 1], xs[|xs| - 1];
      LastIsNew(xs);
      ChangedWellFormed(init, ys, keep);
      var cs := Changed(init, ys, keep);
      forall i, c, d | 0 <= i < |cs| && c in Claims(cs[i]) && d in Claims(x) ensures Clear(c, d) {
        ChangedMembers(init, ys, keep, cs[i]);
        ClaimsClear(xs, cs[i], x, c, d);
      }
      forall n | n in cs ensures n in xs {
        ChangedMembers(init, ys, keep, n);
      }
    }
  }

  // ----- one init

  /** The table holds address 0 with nil and, beyond that, exactly what `nodes` were given. */
  ghost predicate Tracks(at: Placed, m: Ranges<Payload>, nodes: seq<SDWANNode>) {
    && Disjoint(m)
    && (forall n :: n in nodes ==> n in at)
    && forall e :: Holds(m, e) <==> e == Add(0, 0, None) || LiveIn(at, nodes, e)
  }

  lemma FreshTracks()
    ensures Tracks(map[], FreshTable, []) && WellFormed([])
  {}

  lemma EmptyTracks(at: Placed, at': Placed, m: Ranges<Payload>)
    ensures Tracks(at, m, []) <==> Tracks(at', m, [])
  {}

  /** A claim names the node that makes it. */
  lemma OneClaimant(nodes: seq<SDWANNode>, n: SDWANNode, m: SDWANNode, c: Step, d: Step)
    requires WellFormed(nodes) && n in nodes && m in nodes && c in Claims(n) && d in Claims(m) && c.lo == d.lo
    ensures n == m
  {
    if n != m {
      ClaimsClear(nodes, n, m, c, d);
    }
  }

  /** A deletion for some node hits the lower bound of a claim only if the claim is its own. */
  lemma DelHits(env: Env, nodes: seq<SDWANNode>, del: seq<SDWANNode>, n: SDWANNode, c: Step)
    requires WellFormed(nodes) && n in nodes && c in Claims(n)
    requires forall d :: d in del ==> d in nodes
    ensures Del(c.lo) in DelOps(env, del) <==> n in del && Del(c.lo) in NodeDelOps(env, n)
  {
    DelOpsMembers(env, del, Del(c.lo));
    if d :| d in del && Del(c.lo) in NodeDelOps(env, d) {
      LiveSub(env, d);
      var c' :| c' in Claims(d) && c'.lo == c.lo;
      OneClaimant(nodes, n, d, c, c');
    }
  }

  lemma DelOpsPositive(env: Env, nodes: seq<SDWANNode>, del: seq<SDWANNode>, op: Step)
    requires WellFormed(nodes) && op in DelOps(env, del)
    requires forall d :: d in del ==> d in nodes
    ensures op.Del? && 0 < op.lo
  {
    DelOpsMembers(env, del, op);
    var d :| d in del && op in NodeDelOps(env, d);
    LiveSub(env, d);
  }

  ghost predicate KeptLive(at: Placed, nodes: seq<SDWANNode>, del: seq<SDWANNode>, e: Step) {
    exists n :: n in nodes && n in at && n !in del && e in Live(at[n], n)
  }

  /** `m` holds address 0 and exactly what the nodes outside `del` were given. */
  ghost predicate Remains(at: Placed, m: Ranges<Payload>, nodes: seq<SDWANNode>, del: seq<SDWANNode>) {
    forall e :: Holds(m, e) <==> e == Add(0, 0, None) || KeptLive(at, nodes, del, e)
  }

  lemma DelEntries(env: Env, at: Placed, m: Ranges<Payload>, nodes: seq<SDWANNode>, del: seq<SDWANNode>, e: Step)
    requires WellFormed(nodes) && Tracks(at, m, nodes)
    requires forall d :: d in del ==> d in nodes
    ensures Holds(ApplyAll(m, DelOps(env, del)), e) <==>
            e == Add(0, 0, None) || exists n :: n in nodes && n in at && e in Live(at[n], n)
                                               && !(n in del && Del(e.lo) in NodeDelOps(env, n))
  {
    var ops := DelOps(env, del);
    forall op | op in ops ensures op.Del? && 0 < op.lo {
      DelOpsPositive(env, nodes, del, op);
    }
    DelAll(m, ops);
    forall n | n in nodes && n in at && e in Live(at[n], n)
      ensures Del(e.lo) in ops <==> n in del && Del(e.lo) in NodeDelOps(env, n)
    {
      LiveSub(at[n], n);
      DelHits(env, nodes, del, n, e);
    }
  }

  /** Deleting by lower bound removes exactly the entries of the deleted nodes, if and only if none of their
      routed blocks has come into this node's LAN since it was added. */
  lemma DelNodes(env: Env, at: Placed, m: Ranges<Payload>, nodes: seq<SDWANNode>, del: seq<SDWANNode>)
    requires WellFormed(nodes) && Tracks(at, m, nodes)
    requires forall d :: d in del ==> d in nodes
    ensures Remains(at, ApplyAll(m, DelOps(env, del)), nodes, del) <==>
            forall d :: d in del ==> Removable(at[d], env, d)
  {
    if forall d :: d in del ==> Removable(at[d], env, d) {
      var mid := ApplyAll(m, DelOps(env, del));
      forall e ensures Holds(mid, e) <==> e == Add(0, 0, None) || KeptLive(at, nodes, del, e) {
        AllRemoved(env, at, m, nodes, del, e);
      }
    } else {
      var d :| d in del && !Removable(at[d], env, d);
      var it :| it in d.resource && Stale(at[d], env, d, it);
      StaleHolds(env, at, m, nodes, del, d, it);
      StaleNotKept(at, nodes, del, d, it, env);
    }
  }

  lemma AllRemoved(env: Env, at: Placed, m: Ranges<Payload>, nodes: seq<SDWANNode>, del: seq<SDWANNode>, e: Step)
    requires WellFormed(nodes) && Tracks(at, m, nodes)
    requires forall d :: d in del ==> d in nodes && Removable(at[d], env, d)
    ensures Holds(ApplyAll(m, DelOps(env, del)), e) <==> e == Add(0, 0, None) || KeptLive(at, nodes, del, e)
  {
    DelEntries(env, at, m, nodes, del, e);
    if n :| n in del && e in Live(at[n], n) && Del(e.lo) !in NodeDelOps(env, n) {
      LeftIsStale(at[n], env, n, e);
    }
  }

  /** A deletion leaves a stale block where it is. */
  lemma StaleHolds(env: Env, at: Placed, m: Ranges<Payload>, nodes: seq<SDWANNode>, del: seq<SDWANNode>,
                   d: SDWANNode, it: Item)
    requires WellFormed(nodes) && Tracks(at, m, nodes) && d in nodes && Stale(at[d], env, d, it)
    requires forall n :: n in del ==> n in nodes
    ensures Holds(ApplyAll(m, DelOps(env, del)), BlockOp(it.net.value, d.name))
  {
    var e := BlockOp(it.net.value, d.name);
    BlockMembers(at[d], d.resource, d.name, it);
    BlockStays(env, d, it);
    assert e in Live(at[d], d);
    DelEntries(env, at, m, nodes, del, e);
  }

  lemma StaleNotKept(at: Placed, nodes: seq<SDWANNode>, del: seq<SDWANNode>, d: SDWANNode, it: Item, env: Env)
    requires WellFormed(nodes) && d in nodes && d in del && d in at && Stale(at[d], env, d, it)
    ensures !KeptLive(at, nodes, del, BlockOp(it.net.value, d.name))
  {
    var e := BlockOp(it.net.value, d.name);
    BlockMembers(at[d], d.resource, d.name, it);
    assert e in Claims(d);
    if n :| n in nodes && n in at && n !in del && e in Live(at[n], n) {
      LiveSub(at[n], n);
      OneClaimant(nodes, d, n, e, e);
    }
  }

  // ----- what the additions make of it

  /** Nothing that init adds covers this node's own address, unless it is some node's virtual IP. Blocks
      are nested or disjoint, so every addition spares a block that contains that address. */
  lemma AddsSpare(env: Env, n: SDWANNode, b: Cidr4, name: string, op: Step)
    requires op in Live(env, n) && op.Add? && op.lo <= op.hi && InLan(env, b)
    ensures Spares(op, BlockOp(b, name))
    ensures op == BlockOp(b, name) ==> op == IPOp(n)
  {
    hide Lo, Hi, NetOf;
    if op != IPOp(n) {
      ResourceFrom(env, n.resource, n.name, op);
      var it :| it in n.resource && it.net.Some? && Routed(env, it.net.value) && op == BlockOp(it.net.value, n.name);
      RoutedSpares(env.localIP.value, b, it.net.value);
    }
  }

  lemma RoutedSpares(home: IPv4, b: Cidr4, c: Cidr4)
    requires SamePrefix(home, b) && !SamePrefix(home, c)
    ensures var m, n := NetOf(b), NetOf(c);
            && (!Meets(Lo(m), Hi(m), Lo(n), Hi(n)) || (Lo(m) <= Lo(n) && Hi(n) <= Hi(m)))
            && (Lo(m) != Lo(n) || Hi(m) != Hi(n))
  {
    hide Lo, Hi, ParseCIDR;
    BlockExact(b.addr, b.prefix, home);
    BlockExact(c.addr, c.prefix, home);
    if b.prefix <= c.prefix {
      BlocksNested(b.addr, b.prefix, c.addr, c.prefix);
    } else {
      BlocksNested(c.addr, c.prefix, b.addr, b.prefix);
      assert home[..b.prefix][..c.prefix] == home[..c.prefix] && b.addr[..b.prefix][..c.prefix] == b.addr[..c.prefix];
    }
  }

  /** The same range and payload come back as the virtual IP of an added node of the same name. */
  ghost predicate Reclaimed(local: string, add: seq<SDWANNode>, e: Step) {
    exists n :: n in add && n.name != local && IPOp(n) == e
  }

  /** Every stale block of a deleted node is reclaimed. */
  ghost predicate Settled(env: Env, at: Placed, del: seq<SDWANNode>, add: seq<SDWANNode>) {
    forall d, it :: d in del && d in at && it in d.resource && Stale(at[d], env, d, it) ==>
      Reclaimed(env.local, add, BlockOp(it.net.value, d.name))
  }

  /** Stale blocks survive all of init. */
  lemma StaleSurvives(env: Env, at: Placed, m: Ranges<Payload>, nodes: seq<SDWANNode>, del: seq<SDWANNode>,
                      add: seq<SDWANNode>, d: SDWANNode, it: Item)
    requires WellFormed(nodes) && WellFormed(add) && Tracks(at, m, nodes)
    requires d in nodes && Stale(at[d], env, d, it) && forall n :: n in del ==> n in nodes
    ensures Holds(InitTable(env, m, del, add), BlockOp(it.net.value, d.name))
  {
    var e, ops := BlockOp(it.net.value, d.name), AddOps(env, add);
    StaleHolds(env, at, m, nodes, del, d, it);
    AddOpsClear(env, add);
    forall op | op in ops ensures Spares(op, e) {
      AddOpsMembers(env, add, op);
      var n :| n in add && op in Live(env, n);
      AddsSpare(env, n, it.net.value, d.name, op);
    }
    RunDisjoint(m, DelOps(env, del));
    SparedByAll(ApplyAll(m, DelOps(env, del)), ops, e);
  }

  /** Nodes that stay keep the circumstances they were added under. */
  function Placing(env: Env, at: Placed, was: seq<SDWANNode>, now: seq<SDWANNode>, keep: bool): Placed {
    map n | n in now :: if keep && n in was && n in at then at[n] else env
  }

  /** Diff and all, init turns a table that tracks the old nodes into one that tracks the new, if and only
      if every stale block of a deleted node is reclaimed. */
  lemma InitTracks(env: Env, at: Placed, m: Ranges<Payload>, was: seq<SDWANNode>, now: seq<SDWANNode>, keep: bool)
    requires WellFormed(was) && WellFormed(now) && Tracks(at, m, was)
    ensures var del, add := Changed(was, now, keep), Changed(now, was, keep);
            Tracks(Placing(env, at, was, now, keep), InitTable(env, m, del, add), now) <==> Settled(env, at, del, add)
  {
    var del, add, at' := Changed(was, now, keep), Changed(now, was, keep), Placing(env, at, was, now, keep);
    ChangedWellFormed(now, was, keep);
    forall n ensures n in del ==> n in was {
      ChangedMembers(was, now, keep, n);
    }
    if Settled(env, at, del, add) {
      SettledTracks(env, at, m, was, now, keep);
    } else {
      var d, it :| d in del && d in at && it in d.resource && Stale(at[d], env, d, it)
        && !Reclaimed(env.local, add, BlockOp(it.net.value, d.name));
      StaleSurvives(env, at, m, was, del, add, d, it);
      StaleNotLive(env, at, was, now, keep, d, it);
    }
  }

  lemma StaleNotLive(env: Env, at: Placed, was: seq<SDWANNode>, now: seq<SDWANNode>, keep: bool,
                     d: SDWANNode, it: Item)
    requires WellFormed(was) && WellFormed(now) && forall n :: n in was ==> n in at
    requires d in Changed(was, now, keep) && d in was && Stale(at[d], env, d, it)
    requires !Reclaimed(env.local, Changed(now, was, keep), BlockOp(it.net.value, d.name))
    ensures !LiveIn(Placing(env, at, was, now, keep), now, BlockOp(it.net.value, d.name))
  {
    var e, add := BlockOp(it.net.value, d.name), Changed(now, was, keep);
    NowLive(env, at, was, now, keep, e);
    StaleNotKept(at, was, Changed(was, now, keep), d, it, env);
    if n :| n in add && e in Live(env, n) {
      ChangedMembers(now, was, keep, n);
      LiveSub(env, n);
      AddsSpare(env, n, it.net.value, d.name, e);
    }
  }

  lemma SettledTracks(env: Env, at: Placed, m: Ranges<Payload>, was: seq<SDWANNode>, now: seq<SDWANNode>, keep: bool)
    requires WellFormed(was) && WellFormed(now) && Tracks(at, m, was)
    requires Settled(env, at, Changed(was, now, keep), Changed(now, was, keep))
    ensures Tracks(Placing(env, at, was, now, keep),
                   InitTable(env, m, Changed(was, now, keep), Changed(now, was, keep)), now)
  {
    var del, add, at' := Changed(was, now, keep), Changed(now, was, keep), Placing(env, at, was, now, keep);
    var mid, ops := ApplyAll(m, DelOps(env, del)), AddOps(env, add);
    RunDisjoint(m, DelOps(env, del));
    ChangedWellFormed(now, was, keep);
    AddOpsClear(env, add);
    forall e ensures Holds(mid, e) ==> e == Add(0, 0, None) || e in ops || KeptLive(at, was, del, e)
             ensures e == Add(0, 0, None) || KeptLive(at, was, del, e) ==> Holds(mid, e)
    {
      MidEntries(env, at, m, was, now, keep, e);
    }
    forall e, op | Holds(mid, e) && op in ops ensures Clear(e, op) || e == op {
      MidClear(env, at, was, now, keep, e, op);
    }
    AddAllClear(mid, ops);
    RunDisjoint(mid, ops);
    forall e ensures Holds(ApplyAll(mid, ops), e) <==> e == Add(0, 0, None) || LiveIn(at', now, e) {
      AddOpsMembers(env, add, e);
      NowLive(env, at, was, now, keep, e);
    }
  }

  /** Between deletions and additions: what the kept nodes hold, and what is about to be added again. */
  lemma MidEntries(env: Env, at: Placed, m: Ranges<Payload>, was: seq<SDWANNode>, now: seq<SDWANNode>, keep: bool,
                   e: Step)
    requires WellFormed(was) && Tracks(at, m, was)
    requires Settled(env, at, Changed(was, now, keep), Changed(now, was, keep))
    ensures var del, add := Changed(was, now, keep), Changed(now, was, keep);
            var mid := ApplyAll(m, DelOps(env, del));
            && (Holds(mid, e) ==> e == Add(0, 0, None) || e in AddOps(env, add) || KeptLive(at, was, del, e))
            && (e == Add(0, 0, None) || KeptLive(at, was, del, e) ==> Holds(mid, e))
  {
    var del, add := Changed(was, now, keep), Changed(now, was, keep);
    forall n ensures n in del ==> n in was {
      ChangedMembers(was, now, keep, n);
    }
    DelEntries(env, at, m, was, del, e);
    if n :| n in del && n in at && e in Live(at[n], n) && Del(e.lo) !in NodeDelOps(env, n) {
      LeftIsStale(at[n], env, n, e);
      var it :| Stale(at[n], env, n, it) && e == BlockOp(it.net.value, n.name);
      var a :| a in add && a.name != env.local && IPOp(a) == e;
      assert e in Live(env, a);
      AddOpsMembers(env, add, e);
    }
  }

  lemma MidClear(env: Env, at: Placed, was: seq<SDWANNode>, now: seq<SDWANNode>, keep: bool, e: Step, op: Step)
    requires var ops := AddOps(env, Changed(now, was, keep));
             && WellFormed(now) && op in ops && ClearAll(ops)
             && (e == Add(0, 0, None) || e in ops || KeptLive(at, was, Changed(was, now, keep), e))
    ensures Clear(e, op) || e == op
  {
    var add, ops := Changed(now, was, keep), AddOps(env, Changed(now, was, keep));
    AddOpsMembers(env, add, op);
    var a :| a in add && op in Live(env, a);
    LiveSub(env, a);
    ChangedMembers(now, was, keep, a);
    if e in ops {
      ClearPair(ops, e, op);
    } else if e != Add(0, 0, None) {
      var n :| n in was && n in at && n !in Changed(was, now, keep) && e in Live(at[n], n);
      LiveSub(at[n], n);
      ChangedMembers(was, now, keep, n);
      ClaimsClear(now, n, a, e, op);
    }
  }

  /** What the new nodes hold is what the kept ones were given and what the added ones get. */
  lemma NowLive(env: Env, at: Placed, was: seq<SDWANNode>, now: seq<SDWANNode>, keep: bool, e: Step)
    requires forall n :: n in was ==> n in at
    ensures LiveIn(Placing(env, at, was, now, keep), now, e) <==>
            || KeptLive(at, was, Changed(was, now, keep), e)
            || (exists n :: n in Changed(now, was, keep) && e in Live(env, n))
  {
    var at' := Placing(env, at, was, now, keep);
    forall n ensures n in Changed(was, now, keep) <==> n in was && !(keep && n in now)
             ensures n in Changed(now, was, keep) <==> n in now && !(keep && n in was)
    {
      ChangedMembers(was, now, keep, n);
      ChangedMembers(now, was, keep, n);
    }
    forall n | n in was && n in at && n !in Changed(was, now, keep) && e in Live(at[n], n)
      ensures LiveIn(at', now, e)
    {
      assert n in now && at'[n] == at[n];
    }
    forall n | n in Changed(now, was, keep) && e in Live(env, n) ensures LiveIn(at', now, e) {
      assert n in now && at'[n] == env;
    }
  }

  // ----- the system routes

  ghost predicate DistinctIPs(nodes: seq<SDWANNode>) {
    forall i, j :: 0 <= i < j < |nodes| ==> nodes[i].ip != nodes[j].ip
  }

  /** sysRoute is {ip(n) -> n : n in nodes, n is not this node}. */
  ghost predicate SysTracks(local: string, sys: map<Addr, string>, nodes: seq<SDWANNode>) {
    && (forall n :: n in nodes && n.name != local ==> n.ip in sys && sys[n.ip] == n.name)
    && (forall a :: a in sys ==> exists n :: n in nodes && n.name != local && n.ip == a)
  }

  lemma SysDetermined(local: string, sys: map<Addr, string>, sys': map<Addr, string>, nodes: seq<SDWANNode>)
    requires SysTracks(local, sys, nodes) && SysTracks(local, sys', nodes)
    ensures sys == sys'
  {
    forall a | a in sys ensures a in sys' && sys'[a] == sys[a] {
      var n :| n in nodes && n.name != local && n.ip == a;
    }
    forall a | a in sys' ensures a in sys {
      var n :| n in nodes && n.name != local && n.ip == a;
    }
  }

  lemma SysPut(local: string, sys: map<Addr, string>, nodes: seq<SDWANNode>, a: SDWANNode)
    requires SysTracks(local, sys, nodes) && forall n :: n in nodes ==> n.ip != a.ip
    ensures SysTracks(local, if a.name == local then sys else sys[a.ip := a.name], nodes + [a])
  {
    forall ip | ip in sys ensures exists n :: n in nodes + [a] && n.name != local && n.ip == ip {
      var n :| n in nodes && n.name != local && n.ip == ip;
      assert n in nodes + [a];
    }
    assert a in nodes + [a];
  }

  lemma {:induction false} SysAddTracks(local: string, sys: map<Addr, string>, base: seq<SDWANNode>,
                                        add: seq<SDWANNode>)
    requires SysTracks(local, sys, base) && DistinctIPs(add)
    requires forall n, a :: n in base && a in add ==> n.ip != a.ip
    ensures SysTracks(local, SysAdd(local, sys, add), base + add)
  {
    if add == [] {
      assert base + add == base;
    } else {
      var init, a := add[..|add| - 1], add[|add| - 1];
      SysAddTracks(local, sys, base, init);
      SysPut(local, SysAdd(local, sys, init), base + init, a);
      assert base + add == (base + init) + [a];
    }
  }

  lemma {:induction false} ChangedDistinct(xs: seq<SDWANNode>, ys: seq<SDWANNode>, keep: bool)
    requires DistinctIPs(xs)
    ensures DistinctIPs(Changed(xs, ys, keep))
  {
    if xs == [] {
    } else {
      var init, x := xs[..|xs| - 1], xs[|xs| - 1];
      ChangedDistinct(init, ys, keep);
      forall n | n in Changed(init, ys, keep) ensures n.ip != x.ip {
        ChangedMembers(init, ys, keep, n);
      }
    }
  }

  lemma SameIPSameNode(nodes: seq<SDWANNode>, n: SDWANNode, m: SDWANNode)
    requires DistinctIPs(nodes) && n in nodes && m in nodes && n.ip == m.ip
    ensures n == m
  {}

  lemma SysInitTracks(local: string, sys: map<Addr, string>, was: seq<SDWANNode>, now: seq<SDWANNode>, keep: bool)
    requires DistinctIPs(was) && DistinctIPs(now) && SysTracks(local, sys, was)
    ensures SysTracks(local, SysAdd(local, SysDel(sys, Changed(was, now, keep)), Changed(now, was, keep)), now)
  {
    var del, add, kept := Changed(was, now, keep), Changed(now, was, keep), if keep then Common(was, now) else [];
    forall n ensures n in del <==> n in was && !(keep && n in now)
             ensures n in add <==> n in now && !(keep && n in was)
    {
      ChangedMembers(was, now, keep, n);
      ChangedMembers(now, was, keep, n);
    }
    forall n ensures n in kept <==> keep && n in was && n in now {
      CommonMembers(was, now, n);
    }
    var mid := SysDel(sys, del);
    assert SysTracks(local, mid, kept) by {
      forall n | n in kept && n.name != local ensures n.ip in mid && mid[n.ip] == n.name {
        forall d | d in del ensures d.ip != n.ip {
          if d.ip == n.ip {
            SameIPSameNode(was, d, n);
          }
        }
      }
    }
    ChangedDistinct(now, was, keep);
    forall n, a | n in kept && a in add ensures n.ip != a.ip {
      if n.ip == a.ip {
        SameIPSameNode(now, n, a);
      }
    }
    SysAddTracks(local, mid, kept, add);
    assert forall n :: n in kept + add <==> n in now;
  }

  ghost function Common(xs: seq<SDWANNode>, ys: seq<SDWANNode>): seq<SDWANNode> {
    if xs == [] then [] else (if xs[0] in ys then [xs[0]] else []) + Common(xs[1..], ys)
  }

  lemma {:induction false} CommonMembers(xs: seq<SDWANNode>, ys: seq<SDWANNode>, n: SDWANNode)
    ensures n in Common(xs, ys) <==> n in xs && n in ys
  {
    if xs == [] {
    } else {
      CommonMembers(xs[1..], ys, n);
    }
  }

  // ----- one message

  /** The nodes that routes are kept for: none while the network is disabled. */
  function Active(config: SDWANInfo): seq<SDWANNode> {
    if config.enable == 0 then [] else config.nodes
  }

  /** Both indexes agree with the current configuration. */
  ghost predicate TableSynced(at: Placed, st: State) {
    WellFormed(Active(st.config)) && Tracks(at, st.table, Active(st.config))
  }

  ghost predicate SysSynced(local: string, st: State) {
    DistinctIPs(Active(st.config)) && SysTracks(local, st.sys, Active(st.config))
  }

  ghost function PlacedAfter(local: string, at: Placed, st: State, msg: Message): Placed {
    var b := Base(st, msg).config;
    Placing(EnvAt(local, msg), at, b.nodes, Active(msg.info), MayKeep(local, b, msg.info))
  }

  /** The message deletes no route into what is now this node's LAN, or adds it again. */
  ghost predicate Clean(local: string, at: Placed, st: State, msg: Message) {
    msg.info.enable != 0 ==> Settled(EnvAt(local, msg), at, ToDelete(local, st, msg), ToAdd(local, st, msg))
  }

  /** Only a node whose virtual IP is this node's own LAN address can reclaim a stale block. */
  lemma CleanWhenApart(local: string, at: Placed, st: State, msg: Message)
    requires msg.info.enable != 0
    requires msg.localIP.Some? ==> forall n :: n in ToAdd(local, st, msg) ==> n.ip != Value(msg.localIP.value)
    ensures Clean(local, at, st, msg) <==>
            forall d :: d in ToDelete(local, st, msg) && d in at ==> Removable(at[d], EnvAt(local, msg), d)
  {
    hide Lo, Hi, NetOf, Value;
    forall d, it | d in at && it in d.resource && Stale(at[d], EnvAt(local, msg), d, it)
      ensures !Reclaimed(local, ToAdd(local, st, msg), BlockOp(it.net.value, d.name))
    {
      HomeInside(msg.localIP.value, it.net.value);
    }
  }

  lemma HomeInside(home: IPv4, b: Cidr4)
    requires SamePrefix(home, b)
    ensures Lo(NetOf(b)) <= Value(home) <= Hi(NetOf(b))
  {
    BlockExact(b.addr, b.prefix, home);
  }

  /** An enabled message applies its diff to a table that is in step with the configuration it starts from. */
  lemma InitSynced(local: string, at: Placed, b: State, msg: Message)
    requires !NeedsReset(b, msg) && msg.info.enable != 0 && WellFormed(msg.info.nodes)
    requires WellFormed(b.config.nodes) && Tracks(at, b.table, b.config.nodes)
    ensures Tracks(PlacedAfter(local, at, b, msg), Handle(local, b, msg).table, msg.info.nodes) <==>
            Clean(local, at, b, msg)
  {
    hide Tracks, WellFormed, InitTable, Changed, SysAdd, SysDel, MayKeep, Settled, Placing;
    InitTracks(EnvAt(local, msg), at, b.table, b.config.nodes, msg.info.nodes, MayKeep(local, b.config, msg.info));
  }

  /** A message that starts from a table in step, or that takes the reset path, leaves a tree that routes
      exactly the new configuration if and only if it is clean. */
  lemma HandleTable(local: string, at: Placed, st: State, msg: Message)
    requires WellFormed(Active(msg.info)) && (TableSynced(at, st) || NeedsReset(st, msg))
    ensures TableSynced(PlacedAfter(local, at, st, msg), Handle(local, st, msg)) <==> Clean(local, at, st, msg)
  {
    hide Tracks, WellFormed, InitTable, SysAdd, SysDel, MayKeep, Settled;
    FreshTracks();
    if msg.info.enable == 0 {
      EmptyTracks(at, PlacedAfter(local, at, st, msg), st.table);
      EmptyTracks(map[], PlacedAfter(local, at, st, msg), FreshTable);
    } else if NeedsReset(st, msg) {
      ResetClean(local, at, st, msg);
      ResetSynced(local, at, st, msg);
    } else {
      InitSynced(local, at, st, msg);
    }
  }

  lemma ResetClean(local: string, at: Placed, st: State, msg: Message)
    requires NeedsReset(st, msg)
    ensures Clean(local, at, st, msg)
  {}

  lemma ResetSynced(local: string, at: Placed, st: State, msg: Message)
    requires NeedsReset(st, msg) && msg.info.enable != 0 && WellFormed(msg.info.nodes)
    ensures Tracks(PlacedAfter(local, at, st, msg), Handle(local, st, msg).table, msg.info.nodes)
  {
    hide Tracks, WellFormed, InitTable, SysAdd, SysDel, MayKeep, Removable;
    FreshTracks();
    var env, keep := EnvAt(local, msg), MayKeep(local, EmptyInfo, msg.info);
    InitTracks(env, map[], FreshTable, [], msg.info.nodes, keep);
    assert Placing(env, map[], [], msg.info.nodes, keep) == PlacedAfter(local, at, st, msg);
  }

  /** The same for the system routes, which need distinct virtual IPs only. */
  lemma HandleSys(local: string, st: State, msg: Message)
    requires DistinctIPs(Active(msg.info)) && (SysSynced(local, st) || NeedsReset(st, msg))
    ensures SysSynced(local, Handle(local, st, msg))
  {
    var b := Base(st, msg);
    if msg.info.enable != 0 {
      SysInitTracks(local, b.sys, b.config.nodes, msg.info.nodes, MayKeep(local, b.config, msg.info));
    }
  }

  lemma WellFormedDistinct(nodes: seq<SDWANNode>)
    requires WellFormed(nodes)
    ensures DistinctIPs(nodes)
  {
    forall i, j | 0 <= i < j < |nodes| ensures nodes[i].ip != nodes[j].ip {
      assert IPOp(nodes[i]) in Claims(nodes[i]) && IPOp(nodes[j]) in Claims(nodes[j]);
      assert Clear(IPOp(nodes[i]), IPOp(nodes[j]));
    }
  }

  /** Both circumstances route the same ranges to `n`. */
  ghost predicate SameLive(a: Env, b: Env, n: SDWANNode) {
    forall op :: op in Live(a, n) <==> op in Live(b, n)
  }

  lemma LiveOwn(at: Placed, m: Ranges<Payload>, nodes: seq<SDWANNode>, n: SDWANNode, op: Step)
    requires WellFormed(nodes) && Tracks(at, m, nodes) && n in nodes && op in Claims(n)
    ensures Holds(m, op) <==> op in Live(at[n], n)
  {
    LiveSub(at[n], n);
    if k :| k in nodes && k in at && op in Live(at[k], k) {
      LiveSub(at[k], k);
      OneClaimant(nodes, n, k, op, op);
    }
  }

  lemma TracksSame(at: Placed, m: Ranges<Payload>, at': Placed, m': Ranges<Payload>, nodes: seq<SDWANNode>)
    requires WellFormed(nodes) && Tracks(at, m, nodes) && Tracks(at', m', nodes)
    ensures m == m' <==> forall n :: n in nodes ==> SameLive(at[n], at'[n], n)
  {
    if m == m' {
      forall n, op | n in nodes ensures op in Live(at[n], n) <==> op in Live(at'[n], n) {
        LiveSub(at[n], n);
        LiveSub(at'[n], n);
        if op in Claims(n) {
          LiveOwn(at, m, nodes, n, op);
          LiveOwn(at', m', nodes, n, op);
        }
      }
    }
    if forall n :: n in nodes ==> SameLive(at[n], at'[n], n) {
      forall e ensures LiveIn(at, nodes, e) <==> LiveIn(at', nodes, e) {}
      EntriesDetermine(m, m');
    }
  }

  /** The diff path gives the tree that the reset path would give, if and only if the message is clean and
      the LAN and ping tests still route the same ranges to the nodes that stay, ... */
  lemma DiffIsRebuild(local: string, at: Placed, st: State, msg: Message)
    requires TableSynced(at, st) && WellFormed(Active(msg.info))
    ensures Handle(local, st, msg).table == Handle(local, Reset(st), msg).table <==>
            var at' := PlacedAfter(local, at, st, msg);
            Clean(local, at, st, msg) && forall n :: n in at' ==> SameLive(at'[n], EnvAt(local, msg), n)
  {
    hide Tracks, WellFormed, InitTable, SysAdd, SysDel, MayKeep, Settled, SameLive;
    FreshTracks();
    var h, h' := Handle(local, st, msg), Handle(local, Reset(st), msg);
    assert TableSynced(map[], Reset(st));
    HandleTable(local, at, st, msg);
    RebuildClean(local, st, msg);
    HandleTable(local, map[], Reset(st), msg);
    if Clean(local, at, st, msg) {
      TracksSame(PlacedAfter(local, at, st, msg), h.table,
                 PlacedAfter(local, map[], Reset(st), msg), h'.table, Active(msg.info));
    } else {
      UncleanDiffers(local, at, st, msg);
    }
  }

  lemma RebuildClean(local: string, st: State, msg: Message)
    ensures Clean(local, map[], Reset(st), msg)
  {}

  /** What an unclean message leaves routed, a rebuild does not route. */
  lemma UncleanDiffers(local: string, at: Placed, st: State, msg: Message)
    requires TableSynced(at, st) && WellFormed(Active(msg.info)) && !Clean(local, at, st, msg)
    requires TableSynced(PlacedAfter(local, map[], Reset(st), msg), Handle(local, Reset(st), msg))
    ensures Handle(local, st, msg).table != Handle(local, Reset(st), msg).table
  {
    hide WellFormed, InitTable, SysAdd, SysDel, Live;
    if NeedsReset(st, msg) {
      ResetClean(local, at, st, msg);
    }
    var was, now, env := st.config.nodes, msg.info.nodes, EnvAt(local, msg);
    var keep := MayKeep(local, st.config, msg.info);
    var del, add := Changed(was, now, keep), Changed(now, was, keep);
    var d, it :| d in del && d in at && it in d.resource && Stale(at[d], env, d, it)
      && !Reclaimed(local, add, BlockOp(it.net.value, d.name));
    var e := BlockOp(it.net.value, d.name);
    forall n ensures n in del ==> n in was {
      ChangedMembers(was, now, keep, n);
    }
    ChangedWellFormed(now, was, keep);
    StaleSurvives(env, at, st.table, was, del, add, d, it);
    NotRebuilt(env, at, was, now, keep, d, it);
    assert Holds(Handle(local, st, msg).table, e);
    assert !Holds(Handle(local, Reset(st), msg).table, e);
  }

  lemma NotRebuilt(env: Env, at: Placed, was: seq<SDWANNode>, now: seq<SDWANNode>, keep: bool, d: SDWANNode, it: Item)
    requires WellFormed(was) && WellFormed(now) && d in at && Stale(at[d], env, d, it)
    requires d in was && d in Changed(was, now, keep)
    requires !Reclaimed(env.local, Changed(now, was, keep), BlockOp(it.net.value, d.name))
    ensures forall n :: n in now ==> BlockOp(it.net.value, d.name) !in Live(env, n)
  {
    var e := BlockOp(it.net.value, d.name);
    BlockMembers(at[d], d.resource, d.name, it);
    assert e in Claims(d);
    forall n | n in now ensures e !in Live(env, n) {
      if e in Live(env, n) {
        LiveSub(env, n);
        AddsSpare(env, n, it.net.value, d.name, e);
        ChangedMembers(now, was, keep, n);
        ChangedMembers(was, now, keep, n);
        if keep && n in was {
          OneClaimant(was, d, n, e, e);
        }
      }
    }
  }

  /** ... and the same system routes. */
  lemma SysDiffIsRebuild(local: string, st: State, msg: Message)
    requires SysSynced(local, st) && DistinctIPs(Active(msg.info))
    ensures Handle(local, st, msg).sys == Handle(local, Reset(st), msg).sys
  {
    assert SysSynced(local, Reset(st));
    var h, h' := Handle(local, st, msg), Handle(local, Reset(st), msg);
    assert h.config == h'.config;
    assert SysSynced(local, h) by { HandleSys(local, st, msg); }
    assert SysSynced(local, h') by { HandleSys(local, Reset(st), msg); }
    SysDetermined(local, h.sys, h'.sys, Active(h.config));
  }

  // ----- what the fields of a message decide

  const Start := State(FreshTable, map[], EmptyInfo, "")

  /** A message is for another public IP, centre or gateway than before, or it switches the network. */
  predicate Moved(publicIP: string, o: SDWANInfo, msg: Message) {
    || publicIP != msg.publicIP || o.centralNode != msg.info.centralNode
    || o.gateway != msg.info.gateway || o.enable != msg.info.enable
  }

  /** Then the past is forgotten: both indexes are what the message alone would give. */
  lemma MovedForgets(local: string, st: State, msg: Message)
    requires Moved(st.previousIP, st.config, msg)
    ensures Handle(local, st, msg).table == Handle(local, Start, msg).table
    ensures Handle(local, st, msg).sys == Handle(local, Start, msg).sys
  {}

  /** Otherwise a disabled network stays as it is, ... */
  lemma DisabledStays(local: string, st: State, msg: Message)
    requires !Moved(st.previousIP, st.config, msg) && msg.info.enable == 0
    ensures Handle(local, st, msg).table == st.table && Handle(local, st, msg).sys == st.sys
  {}

  /** ... and in an enabled one a node of both configurations keeps exactly the entries it has, clean or not,
      unless everything is redone. */
  lemma StayingKeeps(local: string, at: Placed, st: State, msg: Message, n: SDWANNode, e: Step)
    requires TableSynced(at, st) && WellFormed(Active(msg.info)) && msg.info.enable != 0
    requires !Moved(st.previousIP, st.config, msg) && !Redone(local, st.config, msg.info)
    requires n in st.config.nodes && n in msg.info.nodes && e in Claims(n)
    ensures Holds(Handle(local, st, msg).table, e) <==> Holds(st.table, e)
  {
    var was, now, env := st.config.nodes, msg.info.nodes, EnvAt(local, msg);
    var del, add := Changed(was, now, true), Changed(now, was, true);
    var mid, ops := ApplyAll(st.table, DelOps(env, del)), AddOps(env, add);
    KeepExact(local, st.config, msg.info);
    assert Handle(local, st, msg).table == ApplyAll(mid, ops);
    KeptInMid(env, at, st.table, was, now, n, e);
    RunDisjoint(st.table, DelOps(env, del));
    ChangedWellFormed(now, was, true);
    AddOpsClear(env, add);
    forall x, op | Holds(mid, x) && op in ops ensures Spares(op, x) {
      MidSpared(env, at, st.table, was, now, x, op);
    }
    AddAllSpared(mid, ops);
    forall op | op in ops ensures Clear(e, op) {
      AddedApart(env, was, now, n, e, op);
    }
    if Holds(mid, e) {
      SparedByAll(mid, ops, e);
    }
    assert e !in ops;
  }

  lemma KeptInMid(env: Env, at: Placed, m: Ranges<Payload>, was: seq<SDWANNode>, now: seq<SDWANNode>,
                  n: SDWANNode, e: Step)
    requires WellFormed(was) && Tracks(at, m, was) && n in was && n in now && e in Claims(n)
    ensures Holds(ApplyAll(m, DelOps(env, Changed(was, now, true))), e) <==> Holds(m, e)
  {
    var del := Changed(was, now, true);
    forall d ensures d in del <==> d in was && d !in now {
      ChangedMembers(was, now, true, d);
    }
    forall op | op in DelOps(env, del) ensures op.Del? {
      DelOpsPositive(env, was, del, op);
    }
    DelAll(m, DelOps(env, del));
    DelHits(env, was, del, n, e);
  }

  lemma AddedApart(env: Env, was: seq<SDWANNode>, now: seq<SDWANNode>, n: SDWANNode, e: Step, op: Step)
    requires WellFormed(now) && n in was && n in now && e in Claims(n)
    requires op in AddOps(env, Changed(now, was, true))
    ensures Clear(e, op)
  {
    AddOpsMembers(env, Changed(now, was, true), op);
    var a :| a in Changed(now, was, true) && op in Live(env, a);
    ChangedMembers(now, was, true, a);
    LiveSub(env, a);
    ClaimsClear(now, n, a, e, op);
  }

  /** Every entry that the deletions leave is spared by every addition. */
  lemma MidSpared(env: Env, at: Placed, m: Ranges<Payload>, was: seq<SDWANNode>, now: seq<SDWANNode>,
                  x: Step, op: Step)
    requires WellFormed(was) && WellFormed(now) && Tracks(at, m, was)
    requires Holds(ApplyAll(m, DelOps(env, Changed(was, now, true))), x)
    requires op in AddOps(env, Changed(now, was, true))
    ensures Spares(op, x)
  {
    var del, add := Changed(was, now, true), Changed(now, was, true);
    forall d ensures d in del <==> d in was && d !in now {
      ChangedMembers(was, now, true, d);
    }
    AddOpsMembers(env, add, op);
    var a :| a in add && op in Live(env, a);
    ChangedMembers(now, was, true, a);
    LiveSub(env, a);
    assert op.lo <= op.hi;
    DelEntries(env, at, m, was, del, x);
    if x != Add(0, 0, None) {
      var k :| k in was && k in at && x in Live(at[k], k) && !(k in del && Del(x.lo) in NodeDelOps(env, k));
      LiveSub(at[k], k);
      if k in del {
        LeftIsStale(at[k], env, k, x);
        var it :| Stale(at[k], env, k, it) && x == BlockOp(it.net.value, k.name);
        AddsSpare(env, a, it.net.value, k.name, op);
      } else {
        AddedApart(env, was, now, k, x, op);
      }
    }
  }

  /** When everything is redone the tree is the one the message alone would give, unless a routed block has
      come into the LAN. */
  lemma RedoneRebuilds(local: string, at: Placed, st: State, msg: Message)
    requires TableSynced(at, st) && WellFormed(Active(msg.info)) && Redone(local, st.config, msg.info)
    requires forall d :: d in st.config.nodes && d in at ==> Removable(at[d], EnvAt(local, msg), d)
    ensures Handle(local, st, msg).table == Handle(local, Start, msg).table
  {
    MovedStart(local, st, msg);
    if !Moved(st.previousIP, st.config, msg) {
      KeepExact(local, st.config, msg.info);
      forall d ensures d in ToDelete(local, st, msg) ==> d in st.config.nodes {
        ChangedMembers(st.config.nodes, msg.info.nodes, false, d);
      }
      hide Tracks, WellFormed, InitTable, SysAdd, SysDel, MayKeep, Redone;
      DiffIsRebuild(local, at, st, msg);
    }
  }

  lemma MovedStart(local: string, st: State, msg: Message)
    ensures Handle(local, Reset(st), msg).table == Handle(local, Start, msg).table
  {}

  // ----- runs

  /** The circumstances under which each node of the newest configuration was added. */
  ghost function RunPlaced(local: string, msgs: seq<Message>): Placed {
    if msgs == [] then map[]
    else
      var init := msgs[..|msgs| - 1];
      PlacedAfter(local, RunPlaced(local, init), Run(local, Start, init), msgs[|msgs| - 1])
  }

  /** Since the last reset, every message was clean. */
  ghost predicate RunClean(local: string, msgs: seq<Message>) {
    msgs == [] ||
    var init, msg := msgs[..|msgs| - 1], msgs[|msgs| - 1];
    var st := Run(local, Start, init);
    NeedsReset(st, msg) || (RunClean(local, init) && Clean(local, RunPlaced(local, init), st, msg))
  }

  /** Since the last reset, the tree has followed the newest configuration after every message. */
  ghost predicate InStep(local: string, msgs: seq<Message>) {
    && TableSynced(RunPlaced(local, msgs), Run(local, Start, msgs))
    && (msgs == [] ||
        var init := msgs[..|msgs| - 1];
        NeedsReset(Run(local, Start, init), msgs[|msgs| - 1]) || InStep(local, init))
  }

  /** Over every run of disjoint configurations, the tree follows the newest one since the last reset if and
      only if every message since then was clean. */
  lemma {:induction false} RunSynced(local: string, msgs: seq<Message>)
    requires forall msg :: msg in msgs ==> WellFormed(Active(msg.info))
    ensures InStep(local, msgs) <==> RunClean(local, msgs)
  {
    if msgs == [] {
      FreshTracks();
    } else {
      hide TableSynced, Clean, Handle, PlacedAfter, NeedsReset, WellFormed;
      var init, msg := msgs[..|msgs| - 1], msgs[|msgs| - 1];
      var st, at := Run(local, Start, init), RunPlaced(local, init);
      RunSynced(local, init);
      if NeedsReset(st, msg) {
        ResetClean(local, at, st, msg);
        HandleTable(local, at, st, msg);
      } else if InStep(local, init) {
        HandleTable(local, at, st, msg);
      }
    }
  }

  /** The system routes follow every run in which each enabled configuration has distinct virtual IPs. */
  lemma {:induction false} RunSysSynced(local: string, msgs: seq<Message>)
    requires forall msg :: msg in msgs ==> DistinctIPs(Active(msg.info))
    ensures SysSynced(local, Run(local, Start, msgs))
  {
    if msgs == [] {
    } else {
      var init, msg := msgs[..|msgs| - 1], msgs[|msgs| - 1];
      RunSysSynced(local, init);
      HandleSys(local, Run(local, Start, init), msg);
    }
  }

  /** The public IP of the last enabled configuration; a disabled one does not get as far as init. */
  function LastPublicIP(msgs: seq<Message>): string {
    if msgs == [] then ""
    else
      var msg := msgs[|msgs| - 1];
      if msg.info.enable != 0 then msg.publicIP else LastPublicIP(msgs[..|msgs| - 1])
  }

  function LastInfo(msgs: seq<Message>): SDWANInfo {
    if msgs == [] then EmptyInfo else msgs[|msgs| - 1].info
  }

  lemma {:induction false} RunFields(local: string, msgs: seq<Message>)
    ensures var st := Run(local, Start, msgs);
            && st.previousIP == LastPublicIP(msgs)
            && st.config.(tunnelNum := 0) == LastInfo(msgs).(tunnelNum := 0)
            && (msgs != [] ==>
                  st.config.tunnelNum == if LastInfo(msgs).tunnelNum < 2 then 2 else LastInfo(msgs).tunnelNum)
  {
    if msgs == [] {
    } else {
      RunFields(local, msgs[..|msgs| - 1]);
    }
  }

  lemma RunNext(local: string, msgs: seq<Message>, msg: Message)
    ensures Run(local, Start, msgs + [msg]) == Handle(local, Run(local, Start, msgs), msg)
    ensures Run(local, Start, [msg]) == Handle(local, Start, msg)
  {
    assert (msgs + [msg])[..|msgs|] == msgs && [msg][..0] == [];
  }

  /** Over every run, clean or not: a message for another public IP than the last enabled one, or for
      another centre or gateway than the last, or that switches the network, leaves both indexes as if it
      were the first. */
  lemma RunForgets(local: string, msgs: seq<Message>, msg: Message)
    requires Moved(LastPublicIP(msgs), LastInfo(msgs), msg)
    ensures Run(local, Start, msgs + [msg]).table == Run(local, Start, [msg]).table
    ensures Run(local, Start, msgs + [msg]).sys == Run(local, Start, [msg]).sys
  {
    RunFields(local, msgs);
    RunNext(local, msgs, msg);
    MovedForgets(local, Run(local, Start, msgs), msg);
  }

  /** Over every run of disjoint configurations that is clean since the last reset: after any other message
      a node of the last two configurations keeps exactly its entries, unless everything is redone. */
  lemma RunKeeps(local: string, msgs: seq<Message>, msg: Message, n: SDWANNode, e: Step)
    requires RunClean(local, msgs) && forall m :: m in msgs + [msg] ==> WellFormed(Active(m.info))
    requires !Moved(LastPublicIP(msgs), LastInfo(msgs), msg) && !Redone(local, LastInfo(msgs), msg.info)
    requires msg.info.enable != 0 && n in LastInfo(msgs).nodes && n in msg.info.nodes && e in Claims(n)
    ensures Holds(Run(local, Start, msgs + [msg]).table, e) <==> Holds(Run(local, Start, msgs).table, e)
  {
    hide WellFormed, RunClean, Handle, Claims, Tracks;
    var st := Run(local, Start, msgs);
    RunFields(local, msgs);
    RunNext(local, msgs, msg);
    assert msg in msgs + [msg] && forall m :: m in msgs ==> m in msgs + [msg];
    RunSynced(local, msgs);
    StayingKeeps(local, RunPlaced(local, msgs), st, msg, n, e);
  }

  lemma {:induction false} PlacedByMessage(local: string, msgs: seq<Message>, n: SDWANNode)
    requires n in RunPlaced(local, msgs)
    ensures exists msg :: msg in msgs && RunPlaced(local, msgs)[n] == EnvAt(local, msg)
  {
    var init, msg := msgs[..|msgs| - 1], msgs[|msgs| - 1];
    assert msg in msgs;
    if n in RunPlaced(local, init) {
      PlacedByMessage(local, init, n);
    }
  }

  /** Every run is clean while this node's LAN address stays the same; the ping answers may change. */
  lemma {:induction false} FixedLanClean(local: string, msgs: seq<Message>)
    requires forall a, b :: a in msgs && b in msgs ==> a.localIP == b.localIP
    ensures RunClean(local, msgs)
  {
    if msgs == [] {
    } else {
      var init, msg := msgs[..|msgs| - 1], msgs[|msgs| - 1];
      FixedLanClean(local, init);
      var at := RunPlaced(local, init);
      forall d, it | d in at && it in d.resource ensures !Stale(at[d], EnvAt(local, msg), d, it) {
        PlacedByMessage(local, init, d);
        var a :| a in init && at[d] == EnvAt(local, a);
        assert a in msgs && msg in msgs;
      }
    }
  }

  /** What a stale block means to packets: whatever else the message adds, they still go to the deleted
      node. */
  lemma StaleAfter(local: string, at: Placed, st: State, msg: Message, d: SDWANNode, it: Item, x: IPv4)
    requires TableSynced(at, st) && WellFormed(Active(msg.info)) && !NeedsReset(st, msg) && msg.info.enable != 0
    requires d in ToDelete(local, st, msg) && d in at && Stale(at[d], EnvAt(local, msg), d, it)
    requires SamePrefix(x, it.net.value)
    ensures Lookup(Handle(local, st, msg).table, Value(x)) == Some(Some(d.name))
  {
    hide WellFormed, Lookup;
    var was, now, keep := st.config.nodes, msg.info.nodes, MayKeep(local, st.config, msg.info);
    var del, add, env := Changed(was, now, keep), Changed(now, was, keep), EnvAt(local, msg);
    forall n ensures n in del ==> n in was {
      ChangedMembers(was, now, keep, n);
    }
    ChangedWellFormed(now, was, keep);
    StaleSurvives(env, at, st.table, was, del, add, d, it);
    var m, e := InitTable(env, st.table, del, add), BlockOp(it.net.value, d.name);
    RunDisjoint(st.table, DelOps(env, del));
    RunDisjoint(ApplyAll(st.table, DelOps(env, del)), AddOps(env, add));
    BlockExact(it.net.value.addr, it.net.value.prefix, x);
    assert Hits(m, e.lo, Value(x));
    LookupUnique(m, e.lo, Value(x));
  }

  const Office := SDWANInfo("10.2.3.254/24", "fullmesh", "", 1, 2, [])

  /** A run that is not clean: a node is routed a block, then this node's address moves into that block and
      the node is taken out of the configuration. The deletion skips the block, and its packets still go to
      a node that the network no longer has. */
  lemma StaleRoute(local: string, n: SDWANNode, it: Item, away: IPv4, home: IPv4, x: IPv4)
    requires WellFormed([n]) && n.name != local && it in n.resource && it.net.Some?
    requires !SamePrefix(away, it.net.value) && SamePrefix(home, it.net.value) && SamePrefix(x, it.net.value)
    ensures var first := Message(Office.(nodes := [n]), "203.0.113.7", Some(away), {});
            var second := Message(Office, "203.0.113.7", Some(home), {});
            Lookup(Run(local, Start, [first, second]).table, Value(x)) == Some(Some(n.name))
  {
    hide Tracks, WellFormed, Claims, InitTable, SysAdd, SysDel, Lookup, SamePrefix;
    var first := Message(Office.(nodes := [n]), "203.0.113.7", Some(away), {});
    var second := Message(Office, "203.0.113.7", Some(home), {});
    FreshTracks();
    FixedLanClean(local, [first]);
    RunSynced(local, [first]);
    assert [first, second][..1] == [first] && [first][..0] == [];
    var st, at := Run(local, Start, [first]), RunPlaced(local, [first]);
    assert at == map[n := EnvAt(local, first)];
    assert !NeedsReset(st, second);
    var keep := MayKeep(local, st.config, Office);
    assert Changed([n], [], keep) == Changed([], [], keep) + [n];
    StaleAfter(local, at, st, second, n, it, x);
  }

  // ----- who receives a packet

  /** The block of resource `it` contains `x`, does not contain this node's LAN address, and is not a single
      address that answers a ping. */
  predicate Serves(env: Env, it: Item, x: IPv4) {
    it.net.Some? &&
    var p, addr := it.net.value.prefix, it.net.value.addr;
    && x[..p] == addr[..p]
    && (env.localIP.Some? ==> env.localIP.value[..p] != addr[..p])
    && !(p == 32 && Value(addr) in env.reachable)
  }

  lemma ServesExact(env: Env, it: Item, x: IPv4)
    ensures Serves(env, it, x) <==> it.net.Some? && Routed(env, it.net.value) && SamePrefix(x, it.net.value)
  {
    if it.net.Some? && it.net.value.prefix == 32 {
      assert NetOf(it.net.value).ip == it.net.value.addr;
    }
  }

  ghost predicate Owns(env: Env, n: SDWANNode, x: IPv4) {
    n.name != env.local && (n.ip == Value(x) || exists it :: it in n.resource && Serves(env, it, x))
  }

  predicate Contains(op: Step, ip: Addr) {
    op.Add? && op.lo <= ip <= op.hi
  }

  lemma {:induction false} ResourceHit(env: Env, items: seq<Item>, name: string, x: IPv4)
    ensures (exists op :: op in ResourceOps(env, items, name) && Contains(op, Value(x))) <==>
            (exists it :: it in items && Serves(env, it, x))
    ensures forall op :: op in ResourceOps(env, items, name) ==> op.Add? && op.v == Some(name)
  {
    if items == [] {
    } else {
      var init, it := items[..|items| - 1], items[|items| - 1];
      ResourceHit(env, init, name, x);
      assert items == init + [it];
      var ops, prev := ResourceOps(env, items, name), ResourceOps(env, init, name);
      ServesExact(env, it, x);
      if it.net.Some? && Routed(env, it.net.value) {
        var op := BlockOp(it.net.value, name);
        BlockExact(it.net.value.addr, it.net.value.prefix, x);
        assert Contains(op, Value(x)) <==> Serves(env, it, x);
        assert forall o :: o in ops <==> o in prev || o == op;
      } else {
        assert ops == prev;
      }
    }
  }

  lemma LiveHit(env: Env, n: SDWANNode, x: IPv4)
    ensures (exists op :: op in Live(env, n) && Contains(op, Value(x))) <==> Owns(env, n, x)
    ensures forall op :: op in Live(env, n) ==> op.Add? && op.v == Some(n.name)
  {
    ResourceHit(env, n.resource, n.name, x);
    if n.name != env.local {
      assert IPOp(n) in Live(env, n);
      assert forall op :: op in Live(env, n) <==> op == IPOp(n) || op in ResourceOps(env, n.resource, n.name);
    }
  }

  /** A packet goes to a node exactly when that node owns the destination. */
  lemma RoutesToOwner(at: Placed, st: State, x: IPv4, name: string)
    requires TableSynced(at, st)
    ensures Lookup(st.table, Value(x)) == Some(Some(name)) <==>
            exists n :: n in Active(st.config) && n in at && n.name == name && Owns(at[n], n, x)
  {
    var m, ip, nodes := st.table, Value(x), Active(st.config);
    if n :| n in nodes && n in at && n.name == name && Owns(at[n], n, x) {
      LiveHit(at[n], n, x);
      var op :| op in Live(at[n], n) && Contains(op, ip);
      assert Holds(m, op) && Hits(m, op.lo, ip);
      LookupUnique(m, op.lo, ip);
    }
    if Lookup(m, ip) == Some(Some(name)) {
      var k :| Hits(m, k, ip);
      LookupUnique(m, k, ip);
      var e := Add(k, m[k].maxIP, m[k].v);
      assert Holds(m, e);
      var n :| n in nodes && n in at && e in Live(at[n], n);
      LiveHit(at[n], n, x);
    }
  }

  /** The two together: over every clean run of disjoint configurations, whatever mix of resets and diffs
      it took, a packet goes to a node exactly when the newest configuration is enabled and gives the
      destination to that node. */
  lemma RunRoutesToOwner(local: string, msgs: seq<Message>, x: IPv4, name: string)
    requires msgs != [] && RunClean(local, msgs)
    requires forall msg :: msg in msgs ==> WellFormed(Active(msg.info))
    ensures var at := RunPlaced(local, msgs);
            Lookup(Run(local, Start, msgs).table, Value(x)) == Some(Some(name)) <==>
            exists n :: n in Active(msgs[|msgs| - 1].info) && n in at && n.name == name && Owns(at[n], n, x)
  {
    hide RunPlaced, RunClean, WellFormed, Tracks, InitTable, SysAdd, SysDel, Lookup, Owns;
    RunSynced(local, msgs);
    RoutesToOwner(RunPlaced(local, msgs), Run(local, Start, msgs), x, name);
    assert Run(local, Start, msgs).config == Stored(msgs[|msgs| - 1].info);
  }

  /** The two indexes agree: over every run of disjoint configurations that is clean since the last reset,
      the tree sends every address of the system routes to the node that the system routes name. */
  lemma IndexesAgree(local: string, msgs: seq<Message>, a: Addr)
    requires RunClean(local, msgs) && forall msg :: msg in msgs ==> WellFormed(Active(msg.info))
    requires a in Run(local, Start, msgs).sys
    ensures var st := Run(local, Start, msgs); Lookup(st.table, a) == Some(Some(st.sys[a]))
  {
    hide Run, RunPlaced, RunClean, WellFormed, Lookup;
    forall msg | msg in msgs ensures DistinctIPs(Active(msg.info)) {
      WellFormedDistinct(Active(msg.info));
    }
    RunSynced(local, msgs);
    RunSysSynced(local, msgs);
    var st, at := Run(local, Start, msgs), RunPlaced(local, msgs);
    var n :| n in Active(st.config) && n.name != local && n.ip == a;
    PlacedByMessage(local, msgs, n);
    assert IPOp(n) in Live(at[n], n);
    assert Holds(st.table, IPOp(n)) && Hits(st.table, a, a);
    LookupUnique(st.table, a, a);
  }
}
