/** What the SD-WAN node does to its two routing indexes when a configuration arrives
    (core/sdwan.go, core/config.go), as functions on values, and why the incremental path always
    agrees with rebuilding everything. The class in Sdwan.dfy is proved to compute these functions. */
module SdwanTable {
  import opened Basics
  import opened IPRanges
  import opened Cidr

  // ----- configurations

  type IPv4 = b: Bits | |b| == 32 witness seq(32, _ => false)

  /** What net.ParseCIDR makes of one resource. */
  datatype Block = Block(addr: IPv4, prefix: nat)

  type Cidr4 = b: Block | b.prefix <= 32 witness Block(seq(32, _ => false), 0)

  /** One comma-separated item of a resource list: its text, and its block when it parses. */
  datatype Item = Item(text: string, net: Option<Cidr4>)

  /** A node of the network: two nodes are the same when name, IP text and resource text are. `ip` and
      `parses` are what inetAtoN makes of the IP text, 0 and an error when it is no address. The empty
      resource list is []. */
  datatype SDWANNode = SDWANNode(name: string, ipText: string, ip: Addr, parses: bool, resource: seq<Item>)

  datatype SDWANInfo = SDWANInfo(gateway: string, mode: string, centralNode: string,
                                 enable: int, tunnelNum: int, nodes: seq<SDWANNode>)

  const EmptyInfo := SDWANInfo("", "", "", 0, 0, [])

  /** What one message finds: the name of this node, the address its LAN test uses, and the single
      addresses that answer a ping. */
  datatype Env = Env(local: string, localIP: Option<IPv4>, reachable: set<Addr>)

  function NetOf(b: Cidr4): (n: IPNet)
    ensures |n.ip| == |n.mask| == 32
  {
    ParseCIDR(b.addr, b.prefix)
  }

  /** ipnet.Contains. */
  predicate SamePrefix(x: IPv4, b: Cidr4) {
    x[..b.prefix] == b.addr[..b.prefix]
  }

  /** The resource is in this node's own LAN. */
  predicate InLan(env: Env, b: Cidr4) {
    env.localIP.Some? && SamePrefix(env.localIP.value, b)
  }

  /** A single address that this node already reaches. */
  predicate Pinged(env: Env, b: Cidr4) {
    b.prefix == 32 && Lo(NetOf(b)) in env.reachable
  }

  function GetResourceByNodeName(nodes: seq<SDWANNode>, name: string): seq<Item> {
    if nodes == [] then []
    else if nodes[0].name == name then nodes[0].resource
    else GetResourceByNodeName(nodes[1..], name)
  }

  /** `r` is the resource of the first node named `local`, or empty when there is none. */
  ghost predicate OwnResource(nodes: seq<SDWANNode>, local: string, r: seq<Item>) {
    || (exists i :: 0 <= i < |nodes| && nodes[i].name == local && nodes[i].resource == r
                    && forall j :: 0 <= j < i ==> nodes[j].name != local)
    || (r == [] && forall j :: 0 <= j < |nodes| ==> nodes[j].name != local)
  }

  /** What this node offers is the same in both lists. */
  ghost predicate SameOwn(local: string, xs: seq<SDWANNode>, ys: seq<SDWANNode>) {
    exists r :: OwnResource(xs, local, r) && OwnResource(ys, local, r)
  }

  lemma {:induction false} OwnResourceIs(nodes: seq<SDWANNode>, local: string, r: seq<Item>)
    ensures OwnResource(nodes, local, r) <==> r == GetResourceByNodeName(nodes, local)
  {
    if nodes == [] {
    } else if nodes[0].name == local {
      assert OwnResource(nodes, local, nodes[0].resource);
    } else {
      var rest := nodes[1..];
      OwnResourceIs(rest, local, r);
      if i :| 0 <= i < |rest| && rest[i].name == local && rest[i].resource == r
              && forall j :: 0 <= j < i ==> rest[j].name != local {
        assert forall j :: 0 <= j < i + 1 ==> nodes[j].name != local;
        assert nodes[i + 1] == rest[i];
      }
      if i :| 0 <= i < |nodes| && nodes[i].name == local && nodes[i].resource == r
              && forall j :: 0 <= j < i ==> nodes[j].name != local {
        assert rest[i - 1] == nodes[i];
        assert forall j :: 0 <= j < i - 1 ==> rest[j] == nodes[j + 1];
      }
    }
  }

  // ----- the diff of setSDWAN

  /** Unchanged nodes may stay: same mode and centre, and this node's own resource did not change. */
  predicate MayKeep(local: string, o: SDWANInfo, s: SDWANInfo) {
    && o.mode == s.mode && o.centralNode == s.centralNode
    && GetResourceByNodeName(o.nodes, local) == GetResourceByNodeName(s.nodes, local)
  }

  function Changed(xs: seq<SDWANNode>, ys: seq<SDWANNode>, keep: bool): seq<SDWANNode> {
    if xs == [] then []
    else
      var x := xs[|xs| - 1];
      Changed(xs[..|xs| - 1], ys, keep) + if keep && x in ys then [] else [x]
  }

  // ----- what init does to the interval tree and to the system routes

  type Payload = Option<string> // nil, or the name of the node that packets go to

  type Step = Op<Payload>

  function DelResourceOps(env: Env, items: seq<Item>): seq<Step> {
    if items == [] then []
    else
      var x := items[|items| - 1].net;
      DelResourceOps(env, items[..|items| - 1])
      + if x.None? || InLan(env, x.value) then [] else [Del(Lo(NetOf(x.value)))]
  }

  function DelOps(env: Env, nodes: seq<SDWANNode>): seq<Step> {
    if nodes == [] then []
    else
      var n := nodes[|nodes| - 1];
      DelOps(env, nodes[..|nodes| - 1]) + ([Del(n.ip)] + DelResourceOps(env, n.resource))
  }

  function AddIPOps(env: Env, nodes: seq<SDWANNode>): seq<Step> {
    if nodes == [] then []
    else
      var n := nodes[|nodes| - 1];
      AddIPOps(env, nodes[..|nodes| - 1]) + if n.name == env.local then [] else [IPOp(n)]
  }

  function IPOp(n: SDWANNode): Step {
    Add(n.ip, n.ip, Some(n.name))
  }

  function BlockOp(b: Cidr4, name: string): Step {
    Add(Lo(NetOf(b)), Hi(NetOf(b)), Some(name))
  }

  function ResourceOps(env: Env, items: seq<Item>, name: string): seq<Step> {
    if items == [] then []
    else
      var x := items[|items| - 1].net;
      ResourceOps(env, items[..|items| - 1], name)
      + if x.None? || InLan(env, x.value) || Pinged(env, x.value) then [] else [BlockOp(x.value, name)]
  }

  function AddResourceOps(env: Env, nodes: seq<SDWANNode>): seq<Step> {
    if nodes == [] then []
    else
      var n := nodes[|nodes| - 1];
      AddResourceOps(env, nodes[..|nodes| - 1])
      + if n.name == env.local then [] else ResourceOps(env, n.resource, n.name)
  }

  function AddOps(env: Env, nodes: seq<SDWANNode>): seq<Step> {
    AddIPOps(env, nodes) + AddResourceOps(env, nodes)
  }

  ghost function InitTable(env: Env, m: Ranges<Payload>, del: seq<SDWANNode>, add: seq<SDWANNode>): Ranges<Payload> {
    ApplyAll(ApplyAll(m, DelOps(env, del)), AddOps(env, add))
  }

  function SysDel(sys: map<Addr, string>, del: seq<SDWANNode>): map<Addr, string> {
    sys - set n | n in del :: n.ip
  }

  function SysAdd(local: string, sys: map<Addr, string>, add: seq<SDWANNode>): map<Addr, string> {
    if add == [] then sys
    else
      var n := add[|add| - 1];
      var sys' := SysAdd(local, sys, add[..|add| - 1]);
      if n.name == local then sys' else sys'[n.ip := n.name]
  }

  // ----- one message

  datatype State = State(table: Ranges<Payload>, sys: map<Addr, string>, config: SDWANInfo, previousIP: string)

  /** A configuration, with this node's addresses and the ping answers at the time it is handled. The name
      of this node stays the same; its addresses change when it reconnects. */
  datatype Message = Message(info: SDWANInfo, publicIP: string, localIP: Option<IPv4>, reachable: set<Addr>)

  function EnvAt(local: string, msg: Message): Env {
    Env(local, msg.localIP, msg.reachable)
  }

  /** NewIPTree("") stores address 0 with a nil payload. */
  const FreshTable: Ranges<Payload> := map[0 := Range(0, None)]

  predicate NeedsReset(st: State, msg: Message) {
    || st.previousIP != msg.publicIP
    || st.config.centralNode != msg.info.centralNode
    || st.config.gateway != msg.info.gateway
    || st.config.enable != msg.info.enable
  }

  function Reset(st: State): State {
    State(FreshTable, map[], EmptyInfo, st.previousIP)
  }

  function Stored(s: SDWANInfo): SDWANInfo {
    if s.tunnelNum < 2 then s.(tunnelNum := 2) else s
  }

  function Base(st: State, msg: Message): State {
    if NeedsReset(st, msg) then Reset(st) else st
  }

  function ToDelete(local: string, st: State, msg: Message): seq<SDWANNode> {
    var was := Base(st, msg).config;
    Changed(was.nodes, msg.info.nodes, MayKeep(local, was, msg.info))
  }

  function ToAdd(local: string, st: State, msg: Message): seq<SDWANNode> {
    var was := Base(st, msg).config;
    Changed(msg.info.nodes, was.nodes, MayKeep(local, was, msg.info))
  }

  /** handleSDWAN, when init returns nil. */
  ghost function Handle(local: string, st: State, msg: Message): State {
    var b, env := Base(st, msg), EnvAt(local, msg);
    var del, add := ToDelete(local, st, msg), ToAdd(local, st, msg);
    if msg.info.enable == 0 then b.(config := Stored(msg.info))
    else State(InitTable(env, b.table, del, add), SysAdd(local, SysDel(b.sys, del), add),
               Stored(msg.info), msg.publicIP)
  }

  ghost function Run(local: string, st: State, msgs: seq<Message>): State {
    if msgs == [] then st else Handle(local, Run(local, st, msgs[..|msgs| - 1]), msgs[|msgs| - 1])
  }
}
