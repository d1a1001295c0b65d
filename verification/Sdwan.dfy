/** core/sdwan.go and the SD-WAN part of core/config.go, in the form of the source: one object whose
    methods update the two indexes and the stored configuration in place. */
module Sdwan {
  import opened Basics
  import opened IPRanges
  import opened IPTreeModel
  import opened Cidr
  import opened SdwanTable
  import SdwanLaws

  datatype Delivery = ToNode(name: string) | Broadcast | Dropped

  lemma DelNodeStep(env: Env, m: Ranges<Payload>, nodes: seq<SDWANNode>, i: nat)
    requires i < |nodes|
    ensures ApplyAll(m, DelOps(env, nodes[..i + 1])) ==
            ApplyAll(Deleted(ApplyAll(m, DelOps(env, nodes[..i])), nodes[i].ip), DelResourceOps(env, nodes[i].resource))
  {
    var n, done := nodes[i], DelOps(env, nodes[..i]);
    var more := DelResourceOps(env, n.resource);
    assert nodes[..i + 1][..i] == nodes[..i];
    assert DelOps(env, nodes[..i + 1]) == (done + [Del(n.ip)]) + more;
    hide DelOps, DelResourceOps;
    ApplyOne(m, done, Del(n.ip));
    ApplyAllConcat(m, done + [Del(n.ip)], more);
  }

  lemma SysDelStep(sys: map<Addr, string>, nodes: seq<SDWANNode>, i: nat)
    requires i < |nodes|
    ensures SysDel(sys, nodes[..i + 1]) == SysDel(sys, nodes[..i]) - {nodes[i].ip}
  {
    assert nodes[..i + 1] == nodes[..i] + [nodes[i]];
  }

  lemma AddIPStep(env: Env, m: Ranges<Payload>, sys: map<Addr, string>, nodes: seq<SDWANNode>, i: nat)
    requires i < |nodes|
    ensures var n := nodes[i];
            var t, s := ApplyAll(m, AddIPOps(env, nodes[..i])), SysAdd(env.local, sys, nodes[..i]);
            && ApplyAll(m, AddIPOps(env, nodes[..i + 1])) ==
               (if n.name == env.local then t else Added(t, n.ip, n.ip, Some(n.name)))
            && SysAdd(env.local, sys, nodes[..i + 1]) == if n.name == env.local then s else s[n.ip := n.name]
  {
    assert nodes[..i + 1][..i] == nodes[..i];
    ApplyOne(m, AddIPOps(env, nodes[..i]), IPOp(nodes[i]));
  }

  class P2PSdwan {
    const local: string
    var sysRoute: map<Addr, string>
    var internalRoute: IPTree?<Payload>
    var sdwan: SDWANInfo
    var delNodes: seq<SDWANNode>
    var addNodes: seq<SDWANNode>
    var previousIP: string

    ghost predicate Valid()
      reads this, internalRoute
    {
      internalRoute != null ==> internalRoute.Valid()
    }

    /** A missing tree counts as the one that init creates in its place. */
    ghost function Table(): Ranges<Payload>
      reads this, internalRoute
    {
      if internalRoute == null then FreshTable else internalRoute.Contents()
    }

    ghost function Current(): State
      reads this, internalRoute
    {
      State(Table(), sysRoute, sdwan, previousIP)
    }

    constructor (local: string)
      ensures Valid() && this.local == local
      ensures Current() == State(FreshTable, map[], EmptyInfo, "")
      ensures internalRoute == null
    {
      this.local := local;
      sysRoute, internalRoute, sdwan := map[], null, EmptyInfo;
      delNodes, addNodes, previousIP := [], [], "";
    }

    method ResetAll()
      requires Valid()
      modifies this
      ensures Valid() && internalRoute != null && fresh(internalRoute)
      ensures Current() == Reset(old(Current()))
    {
      sysRoute := map[];
      internalRoute := new IPTree(None);
      delNodes, addNodes, sdwan := [], [], EmptyInfo;
    }

    /** One pass of setSDWAN: the nodes of `xs` that `ys` does not hold unchanged. */
    static method Diff(xs: seq<SDWANNode>, ys: seq<SDWANNode>, same: bool, allNew: bool) returns (r: seq<SDWANNode>)
      ensures r == Changed(xs, ys, same && !allNew)
    {
      r := [];
      for i := 0 to |xs|
        invariant r == Changed(xs[..i], ys, same && !allNew)
      {
        var changed := true;
        for j := 0 to |ys|
          invariant changed <==> !(same && xs[i] in ys[..j])
        {
          if xs[i] == ys[j] && same {
            changed := false;
            break;
          }
        }
        if changed || allNew {
          r := r + [xs[i]];
        }
        assert xs[..i + 1][..i] == xs[..i];
      }
      assert xs[..|xs|] == xs;
    }

    /** setSDWAN: the nodes to delete, the nodes to add, and the new configuration. */
    method SetSDWAN(s: SDWANInfo)
      modifies `delNodes, `addNodes, `sdwan
      ensures delNodes == Changed(old(sdwan).nodes, s.nodes, MayKeep(local, old(sdwan), s))
      ensures addNodes == Changed(s.nodes, old(sdwan).nodes, MayKeep(local, old(sdwan), s))
      ensures sdwan == Stored(s)
      ensures sdwan == s.(tunnelNum := if s.tunnelNum < 2 then 2 else s.tunnelNum)
      ensures var o := old(sdwan);
              var redone := o.mode != s.mode || o.centralNode != s.centralNode || !SameOwn(local, o.nodes, s.nodes);
              && (forall n :: n in delNodes <==> n in o.nodes && (n !in s.nodes || redone))
              && (forall n :: n in addNodes <==> n in s.nodes && (n !in o.nodes || redone))
    {
      var allNew := GetResourceByNodeName(sdwan.nodes, local) != GetResourceByNodeName(s.nodes, local);
      var same := sdwan.mode == s.mode && sdwan.centralNode == s.centralNode;
      delNodes := Diff(sdwan.nodes, s.nodes, same, allNew);
      addNodes := Diff(s.nodes, sdwan.nodes, same, allNew);
      forall n
        ensures n in delNodes <==> n in sdwan.nodes && (n !in s.nodes || SdwanLaws.Redone(local, sdwan, s))
        ensures n in addNodes <==> n in s.nodes && (n !in sdwan.nodes || SdwanLaws.Redone(local, sdwan, s))
      {
        SdwanLaws.DiffExact(local, sdwan, s, n);
      }
      sdwan := s;
      if sdwan.tunnelNum < 2 {
        sdwan := sdwan.(tunnelNum := 2);
      }
    }

    method DelResources(env: Env, tree: IPTree<Payload>, items: seq<Item>)
      requires tree.Valid()
      modifies tree
      ensures tree.Valid() && tree.Contents() == ApplyAll(old(tree.Contents()), DelResourceOps(env, items))
    {
      ghost var m := tree.Contents();
      for j := 0 to |items|
        invariant tree.Valid() && tree.Contents() == ApplyAll(m, DelResourceOps(env, items[..j]))
      {
        assert items[..j + 1][..j] == items[..j];
        ghost var done := DelResourceOps(env, items[..j]);
        if items[j].net.None? || InLan(env, items[j].net.value) {
          assert DelResourceOps(env, items[..j + 1]) == done;
          continue;
        }
        var net := NetOf(items[j].net.value);
        tree.DelIntIP(Lo(net), Hi(net));
        ApplyOne(m, done, Del(Lo(net)));
      }
      assert items[..|items|] == items;
    }

    method AddResources(env: Env, tree: IPTree<Payload>, items: seq<Item>, name: string)
      requires tree.Valid()
      modifies tree
      ensures tree.Valid() && tree.Contents() == ApplyAll(old(tree.Contents()), ResourceOps(env, items, name))
    {
      ghost var m := tree.Contents();
      for j := 0 to |items|
        invariant tree.Valid() && tree.Contents() == ApplyAll(m, ResourceOps(env, items[..j], name))
      {
        assert items[..j + 1][..j] == items[..j];
        ghost var done := ResourceOps(env, items[..j], name);
        if items[j].net.None? || InLan(env, items[j].net.value) {
          assert ResourceOps(env, items[..j + 1], name) == done;
          continue;
        }
        var net := NetOf(items[j].net.value);
        if items[j].net.value.prefix == 32 && Lo(net) in env.reachable {
          assert ResourceOps(env, items[..j + 1], name) == done;
          continue;
        }
        var _ := tree.AddIntIP(Lo(net), Hi(net), Some(name));
        ApplyOne(m, done, BlockOp(items[j].net.value, name));
      }
      assert items[..|items|] == items;
    }

    /** The deletions of init. */
    method DelAllNodes(env: Env, tree: IPTree<Payload>)
      requires tree.Valid()
      modifies tree, `sysRoute
      ensures tree.Valid() && tree.Contents() == ApplyAll(old(tree.Contents()), DelOps(env, delNodes))
      ensures sysRoute == SysDel(old(sysRoute), delNodes)
    {
      ghost var m := tree.Contents();
      for i := 0 to |delNodes|
        invariant tree.Valid() && tree.Contents() == ApplyAll(m, DelOps(env, delNodes[..i]))
        invariant sysRoute == SysDel(old(sysRoute), delNodes[..i])
      {
        var n := delNodes[i];
        tree.DelIntIP(n.ip, n.ip);
        sysRoute := sysRoute - {n.ip};
        DelResources(env, tree, n.resource);
        DelNodeStep(env, m, delNodes, i);
        SysDelStep(old(sysRoute), delNodes, i);
      }
      assert delNodes[..|delNodes|] == delNodes;
    }

    /** The first pass over the added nodes; it stops when this node's own TUN cannot start, or at an IP
        that does not parse. */
    method AddAllIPs(env: Env, tree: IPTree<Payload>, tunStarts: bool) returns (ok: bool)
      requires tree.Valid()
      modifies tree, `sysRoute
      ensures tree.Valid()
      ensures ok <==> forall n :: n in addNodes ==> if n.name == env.local then tunStarts else n.parses
      ensures ok ==> tree.Contents() == ApplyAll(old(tree.Contents()), AddIPOps(env, addNodes))
      ensures ok ==> sysRoute == SysAdd(env.local, old(sysRoute), addNodes)
    {
      ghost var m := tree.Contents();
      for i := 0 to |addNodes|
        invariant tree.Valid() && tree.Contents() == ApplyAll(m, AddIPOps(env, addNodes[..i]))
        invariant sysRoute == SysAdd(env.local, old(sysRoute), addNodes[..i])
        invariant forall k :: 0 <= k < i ==> if addNodes[k].name == env.local then tunStarts else addNodes[k].parses
      {
        var n := addNodes[i];
        AddIPStep(env, m, old(sysRoute), addNodes, i);
        if n.name == env.local {
          if !tunStarts {
            return false;
          }
          continue;
        }
        if !n.parses {
          return false;
        }
        sysRoute := sysRoute[n.ip := n.name];
        var _ := tree.AddIntIP(n.ip, n.ip, Some(n.name));
      }
      assert addNodes[..|addNodes|] == addNodes;
      return true;
    }

    /** The second pass: the resources of the added nodes. */
    method AddAllResources(env: Env, tree: IPTree<Payload>)
      requires tree.Valid()
      modifies tree
      ensures tree.Valid() && tree.Contents() == ApplyAll(old(tree.Contents()), AddResourceOps(env, addNodes))
    {
      ghost var m := tree.Contents();
      for i := 0 to |addNodes|
        invariant tree.Valid() && tree.Contents() == ApplyAll(m, AddResourceOps(env, addNodes[..i]))
      {
        assert addNodes[..i + 1][..i] == addNodes[..i];
        var n := addNodes[i];
        ghost var done := AddResourceOps(env, addNodes[..i]);
        if n.name == env.local {
          assert AddResourceOps(env, addNodes[..i + 1]) == done;
          continue;
        }
        AddResources(env, tree, n.resource, n.name);
        ApplyAllConcat(m, done, ResourceOps(env, n.resource, n.name));
      }
      assert addNodes[..|addNodes|] == addNodes;
    }

    method Init(env: Env, publicIP: string, tunStarts: bool) returns (ok: bool)
      requires Valid()
      modifies this, internalRoute
      ensures Valid() && (internalRoute == old(internalRoute) || fresh(internalRoute))
      ensures ok <==> forall n :: n in addNodes ==> if n.name == env.local then tunStarts else n.parses
      ensures ok ==> Table() == InitTable(env, old(Table()), delNodes, addNodes)
      ensures ok ==> sysRoute == SysAdd(env.local, SysDel(old(sysRoute), delNodes), addNodes)
      ensures sdwan == old(sdwan) && delNodes == old(delNodes) && addNodes == old(addNodes)
      ensures previousIP == publicIP
    {
      previousIP := publicIP;
      if internalRoute == null {
        internalRoute := new IPTree(None);
      }
      DelAllNodes(env, internalRoute);
      ghost var mid := internalRoute.Contents();
      ok := AddAllIPs(env, internalRoute, tunStarts);
      if !ok {
        return;
      }
      AddAllResources(env, internalRoute);
      ApplyAllConcat(mid, AddIPOps(env, addNodes), AddResourceOps(env, addNodes));
    }

    /** handleSDWAN, for a configuration that decodes. */
    method HandleSDWAN(msg: Message, tunStarts: bool) returns (ok: bool)
      requires Valid()
      modifies this, internalRoute
      ensures Valid()
      ensures ok <==> msg.info.enable == 0 || forall n :: n in ToAdd(local, old(Current()), msg) ==>
                                                            if n.name == local then tunStarts else n.parses
      ensures ok ==> Current() == Handle(local, old(Current()), msg)
    {
      hide InitTable, SysAdd, SysDel, MayKeep, Changed, GetResourceByNodeName, SameOwn;
      if previousIP != msg.publicIP || sdwan.centralNode != msg.info.centralNode
         || sdwan.gateway != msg.info.gateway || sdwan.enable != msg.info.enable {
        ResetAll();
      }
      SetSDWAN(msg.info);
      if msg.info.enable == 0 {
        return true;
      }
      ok := Init(EnvAt(local, msg), msg.publicIP, tunStarts);
    }

    /** routeTunPacket: where a packet for `dst` goes. */
    method RouteTunPacket(dst: Addr) returns (d: Delivery)
      requires Valid() && internalRoute != null
      ensures forall name :: d == ToNode(name) <==> Lookup(Table(), dst) == Some(Some(name))
      ensures d == Broadcast <==>
              Lookup(Table(), dst) in {None, Some(None)} && (dst == 0xffff_ffff || 0xe000_0000 <= dst < 0xf000_0000)
    {
      var r := internalRoute.Load(dst);
      if r.None? || r.value.None? {
        if dst == 0xffff_ffff || dst / 0x1000_0000 == 0xe {
          return Broadcast;
        }
        return Dropped;
      }
      return ToNode(r.value.value);
    }
  }
}
