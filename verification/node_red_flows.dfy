/** Putting a bridge's tab into a Node-RED installation and taking it out, beside other editors. */
module NodeRedFlows {
  import opened Common

  const BROKER_ID := "rexlite_mqtt_broker"
  const MAX_NODES := 200

  datatype Kind = Tab | Broker | Client | Worker | Foreign

  /** What the check looks at beside identity and place; a Modbus node may name no client. */
  datatype Settings =
    | Plain(text: string)
    | Code(size: nat)
    | Mqtt(broker: string, topic: string)
    | Tcp(server: string, port: string)
    | Flex(client: Option<string>)
    | ModbusClient(clientType: string, host: string, port: string)

  /** A node: `z` is the tab it lies on, if any. */
  datatype Node = Node(id: string, kind: Kind, z: Option<string>, title: string, credentials: bool, settings: Settings)

  /** The gateway a bridge is declared for. */
  datatype Gateway = Gateway(host: string, port: string)

  /** A stored list may hold entries that are not nodes, or nodes without an identity. */
  datatype Item = Junk | Nameless(kind: Kind, z: Option<string>) | Item(node: Node)

  datatype Shape = Shape(tabId: string, configIds: set<string>)

  datatype Rejection = BadFlow | NotOneTab | BadTab | BadNode | DuplicateId | BadConfig | WrongTab | NoBroker

  // ---------------------------------------------------------------------- validating

  predicate IsHexDigit(c: char) { '0' <= c <= '9' || 'a' <= c <= 'f' }

  /** Sixteen hexadecimal digits; a line feed after them passes too. */
  predicate IsHex16(s: string) {
    (|s| == 16 || (|s| == 17 && s[16] == '\n')) && forall i :: 0 <= i < 16 ==> IsHexDigit(s[i])
  }

  function Tabs(flow: seq<Node>): seq<Node> {
    if flow == [] then [] else (if flow[0].kind.Tab? then [flow[0]] else []) + Tabs(flow[1..])
  }

  /** What is wrong with one node, given the identities before it; `fits` checks its own settings. */
  function NodeProblem(n: Node, tabId: string, ids: set<string>, fits: Node -> bool): Option<Rejection> {
    if n.kind.Foreign? then Some(BadNode)
    else if n.id == "" || n.id in ids || n.credentials then Some(DuplicateId)
    else if n.kind.Tab? then None
    else if n.kind.Broker? || n.kind.Client? then
      if n.z.Some? then Some(BadConfig)
      else if n.kind.Broker? then (if n.id != BROKER_ID then Some(BadConfig) else None)
      else if !IsHex16(n.id) || !fits(n) then Some(BadConfig)
      else None
    else if n.z != Some(tabId) then Some(WrongTab)
    else if !fits(n) then Some(BadNode)
    else None
  }

  function Check(flow: seq<Node>, tabId: string, ids: set<string>, configs: set<string>, fits: Node -> bool)
    : Result<(set<string>, set<string>), Rejection>
    decreases |flow|
  {
    if flow == [] then Success((ids, configs))
    else
      match NodeProblem(flow[0], tabId, ids, fits)
      case Some(rejection) => Failure(rejection)
      case None =>
        Check(flow[1..], tabId, ids + {flow[0].id}, if flow[0].kind.Client? then configs + {flow[0].id} else configs, fits)
  }

  predicate StartsWith(s: string, prefix: string) { prefix <= s }

  function Validate(flow: seq<Node>, fits: Node -> bool): Result<Shape, Rejection> {
    if !(1 < |flow| <= MAX_NODES) then Failure(BadFlow)
    else if |Tabs(flow)| != 1 then Failure(NotOneTab)
    else
      var tab := Tabs(flow)[0];
      if !IsHex16(tab.id) || !StartsWith(tab.title, "RexLite") then Failure(BadTab)
      else
        match Check(flow, tab.id, {}, {}, fits)
        case Failure(rejection) => Failure(rejection)
        case Success((ids, configs)) =>
          if BROKER_ID !in ids then Failure(NoBroker) else Success(Shape(tab.id, configs))
  }

  const MAX_CODE := 32768
  const TOPIC_PREFIXES := ["ac/", "curtain/", "lock/", "rexlite/nodered/"]

  predicate HasPrefix(topic: string) { exists i :: 0 <= i < |TOPIC_PREFIXES| && TOPIC_PREFIXES[i] <= topic }

  /** The identities of the Modbus clients a flow brings. */
  function Clients(flow: seq<Node>): set<string> { set n | n in flow && n.kind.Client? :: n.id }

  /** A node's own settings: they name the bridge's gateway, its broker, its topics and the flow's own clients. */
  predicate Fits(gateway: Gateway, clients: set<string>, n: Node) {
    (n.kind.Client? ==> n.settings.ModbusClient?) &&
    match n.settings
    case Plain(_) => true
    case Code(size) => size <= MAX_CODE
    case Mqtt(broker, topic) => broker == BROKER_ID && (topic == "" || HasPrefix(topic))
    case Tcp(server, port) => server == gateway.host && port == gateway.port
    case Flex(client) => client.Some? && client.value in clients
    case ModbusClient(clientType, host, port) => clientType == "tcp" && host == gateway.host && port == gateway.port
  }

  /** The verdict on a flow for a gateway. */
  function Verdict(flow: seq<Node>, gateway: Gateway): Result<Shape, Rejection> {
    var clients := Clients(flow);
    Validate(flow, n => Fits(gateway, clients, n))
  }

  method ValidateFlow(flow: seq<Node>, gateway: Gateway) returns (r: Result<Shape, Rejection>)
    ensures r == Verdict(flow, gateway)
  {
    var clients := Clients(flow);
    var fits := n => Fits(gateway, clients, n);
    if !(1 < |flow| <= MAX_NODES) { return Failure(BadFlow); }
    var tabs := Tabs(flow);
    if |tabs| != 1 { return Failure(NotOneTab); }
    var tabId := tabs[0].id;
    if !IsHex16(tabId) || !StartsWith(tabs[0].title, "RexLite") { return Failure(BadTab); }
    var ids, configs: set<string> := {}, {};
    assert flow[0..] == flow;
    for i := 0 to |flow|
      invariant Check(flow[i..], tabId, ids, configs, fits) == Check(flow, tabId, {}, {}, fits)
    {
      assert flow[i..][1..] == flow[i + 1..];
      var problem := NodeProblem(flow[i], tabId, ids, fits);
      if problem.Some? { return Failure(problem.value); }
      ids := ids + {flow[i].id};
      if flow[i].kind.Client? { configs := configs + {flow[i].id}; }
    }
    assert flow[|flow|..] == [];
    r := if BROKER_ID in ids then Success(Shape(tabId, configs)) else Failure(NoBroker);
  }

  /** A line feed after the sixteen digits of the tab's identity passes. */
  lemma LineFeedPasses(gateway: Gateway)
    ensures var tabId := "0123456789abcdef\n";
      var flow := [Node(tabId, Tab, None, "RexLite", false, Plain("")), Node(BROKER_ID, Broker, None, "", false, Plain(""))];
      Verdict(flow, gateway) == Success(Shape(tabId, {}))
  {
    var tabId := "0123456789abcdef\n";
    var tab := Node(tabId, Tab, None, "RexLite", false, Plain(""));
    var broker := Node(BROKER_ID, Broker, None, "", false, Plain(""));
    var flow := [tab, broker];
    assert flow[1..] == [broker] && flow[1..][1..] == [];
    var none: seq<Node> := [];
    assert Tabs(flow[1..][1..]) == none && none + none == none;
    assert Tabs(flow[1..]) == none && Tabs(flow) == [tab] + none;
    assert IsHex16(tabId) && StartsWith("RexLite", "RexLite");
    var fits := n => Fits(gateway, Clients(flow), n);
    assert |BROKER_ID| == 19 && |tabId| == 17;
    assert Check(flow[1..][1..], tabId, {tabId} + {BROKER_ID}, {}, fits) == Success(({tabId} + {BROKER_ID}, {}));
    assert Check(flow[1..], tabId, {tabId}, {}, fits) == Success(({tabId} + {BROKER_ID}, {}));
    assert {} + {tabId} == {tabId};
  }

  // ------------------------------------------------------------------------- merging

  function Ids(flow: seq<Node>): set<string> { set n | n in flow :: n.id }

  function ZOf(item: Item): Option<string> {
    match item case Junk => None case Nameless(_, z) => z case Item(n) => n.z
  }

  predicate Stays(item: Item, dropped: set<string>, tabId: string) {
    !item.Junk? && !(item.Item? && item.node.id in dropped) && ZOf(item) != Some(tabId)
  }

  function Keep(items: seq<Item>, dropped: set<string>, tabId: string): seq<Item> {
    if items == [] then []
    else (if Stays(items[0], dropped, tabId) then [items[0]] else []) + Keep(items[1..], dropped, tabId)
  }

  function AsItems(flow: seq<Node>): (r: seq<Item>)
    ensures |r| == |flow| && forall i :: 0 <= i < |r| ==> r[i] == Item(flow[i])
  {
    if flow == [] then [] else [Item(flow[0])] + AsItems(flow[1..])
  }

  function Replaced(incoming: seq<Node>, tabId: string, stale: set<string>): set<string> {
    Ids(incoming) + stale + {tabId}
  }

  /** Replace only this bridge's tab and configuration nodes. */
  function MergeFlows(current: seq<Item>, incoming: seq<Node>, tabId: string, stale: set<string>): seq<Item> {
    Keep(current, Replaced(incoming, tabId, stale), tabId) + AsItems(incoming)
  }

  /** Take a bridge out again. */
  function RemoveBridge(current: seq<Item>, configs: set<string>, tabId: string): seq<Item> {
    Keep(current, configs + {tabId}, tabId)
  }

  // ------------------------------------------------------------------ what is valid

  predicate DistinctIds(flow: seq<Node>) { forall i, j :: 0 <= i < j < |flow| ==> flow[i].id != flow[j].id }

  /** A node of a valid flow is the tab, the broker, a listed configuration node, or lies on the tab. */
  predicate Belongs(n: Node, shape: Shape) {
    || (n.kind.Tab? && n.id == shape.tabId)
    || (n.kind.Broker? && n.id == BROKER_ID && n.z.None?)
    || (n.kind.Client? && n.id in shape.configIds && n.z.None?)
    || (n.kind.Worker? && n.z == Some(shape.tabId))
  }

  lemma {:induction false} CheckSpec(
    flow: seq<Node>, tabId: string, ids: set<string>, configs: set<string>, fits: Node -> bool)
    requires Check(flow, tabId, ids, configs, fits).Success?
    ensures var (all, clients) := Check(flow, tabId, ids, configs, fits).value;
      && all == ids + Ids(flow) && DistinctIds(flow) && ids !! Ids(flow)
      && configs <= clients
      && (forall n :: n in flow && n.kind.Client? ==> n.id in clients)
      && (forall c :: c in clients ==> c in configs || exists n :: n in flow && n.kind.Client? && n.id == c)
      && (forall n :: n in flow && !n.kind.Tab? ==> Belongs(n, Shape(tabId, clients)))
    decreases |flow|
  {
    if flow != [] {
      var n, rest := flow[0], flow[1..];
      assert flow == [n] + rest;
      var more := if n.kind.Client? then configs + {n.id} else configs;
      CheckSpec(rest, tabId, ids + {n.id}, more, fits);
      assert Ids(flow) == {n.id} + Ids(rest);
      forall i, j | 0 <= i < j < |flow| ensures flow[i].id != flow[j].id {
        if i > 0 {
          assert rest[i - 1].id != rest[j - 1].id;
        } else {
          assert rest[j - 1] in rest;
        }
      }
    }
  }

  lemma {:induction false} OnlyTab(flow: seq<Node>)
    ensures forall n :: n in Tabs(flow) <==> n in flow && n.kind.Tab?
  {
    if flow != [] {
      assert flow == [flow[0]] + flow[1..];
      OnlyTab(flow[1..]);
    }
  }

  lemma ValidFlowShape(flow: seq<Node>, fits: Node -> bool)
    requires Validate(flow, fits).Success?
    ensures var shape := Validate(flow, fits).value;
      && DistinctIds(flow) && BROKER_ID in Ids(flow) && shape.tabId in Ids(flow) && shape.configIds <= Ids(flow)
      && forall n :: n in flow ==> Belongs(n, shape)
  {
    var shape := Validate(flow, fits).value;
    CheckSpec(flow, shape.tabId, {}, {}, fits);
    OnlyTab(flow);
    assert Tabs(flow) == [Tabs(flow)[0]];
    assert Tabs(flow)[0] in Tabs(flow);
    forall n | n in flow ensures Belongs(n, shape) {
      if n.kind.Tab? { assert n in Tabs(flow); }
    }
  }

  // ------------------------------------------------------------------------ theorems

  lemma {:induction false} KeepSpec(items: seq<Item>, dropped: set<string>, tabId: string)
    ensures forall x :: x in Keep(items, dropped, tabId) <==> x in items && Stays(x, dropped, tabId)
  {
    if items != [] {
      assert items == [items[0]] + items[1..];
      KeepSpec(items[1..], dropped, tabId);
    }
  }

  lemma {:induction false} KeepConcat(a: seq<Item>, b: seq<Item>, dropped: set<string>, tabId: string)
    ensures Keep(a + b, dropped, tabId) == Keep(a, dropped, tabId) + Keep(b, dropped, tabId)
  {
    hide Stays;
    if a == [] {
      assert a + b == b;
    } else {
      assert (a + b)[0] == a[0] && (a + b)[1..] == a[1..] + b;
      KeepConcat(a[1..], b, dropped, tabId);
      Regroup([a[0]], Keep(a[1..], dropped, tabId), Keep(b, dropped, tabId));
    }
  }

  /** Filtering again, by less, changes nothing. */
  lemma {:induction false} KeepAgain(items: seq<Item>, dropped: set<string>, less: set<string>, tabId: string)
    requires less <= dropped
    ensures Keep(Keep(items, dropped, tabId), less, tabId) == Keep(items, dropped, tabId)
  {
    if items != [] {
      KeepAgain(items[1..], dropped, less, tabId);
      var rest := Keep(items[1..], dropped, tabId);
      if Stays(items[0], dropped, tabId) {
        assert ([items[0]] + rest)[1..] == rest;
      } else {
        assert [] + rest == rest;
      }
    }
  }

  lemma {:induction false} KeepNone(flow: seq<Node>, dropped: set<string>, tabId: string)
    requires forall n :: n in flow ==> n.id in dropped || n.z == Some(tabId)
    ensures Keep(AsItems(flow), dropped, tabId) == []
  {
    if flow != [] {
      assert flow[0] in flow;
      assert AsItems(flow)[1..] == AsItems(flow[1..]);
      KeepNone(flow[1..], dropped, tabId);
    }
  }

  /** A stored node of somebody else: neither on the tab, nor the tab, nor replaced by name. */
  predicate IsTheirs(x: Item, incoming: seq<Node>, tabId: string, stale: set<string>) {
    match x
    case Junk => false
    case Nameless(_, z) => z != Some(tabId)
    case Item(n) => n.z != Some(tabId) && n.id != tabId && n.id !in stale && forall m :: m in incoming ==> m.id != n.id
  }

  function Theirs(current: seq<Item>, incoming: seq<Node>, tabId: string, stale: set<string>): seq<Item> {
    Those(current, (x: Item) => IsTheirs(x, incoming, tabId, stale))
  }

  lemma {:induction false} KeptAre(items: seq<Item>, dropped: set<string>, tabId: string, theirs: Item -> bool)
    requires forall x :: x in items ==> Stays(x, dropped, tabId) == theirs(x)
    ensures Keep(items, dropped, tabId) == Those(items, theirs)
  {
    hide Stays;
    if items != [] {
      assert items == [items[0]] + items[1..];
      KeptAre(items[1..], dropped, tabId, theirs);
    }
  }

  lemma {:induction false} MergeKeepsTheirs(current: seq<Item>, incoming: seq<Node>, tabId: string, stale: set<string>)
    ensures Keep(current, Replaced(incoming, tabId, stale), tabId) == Theirs(current, incoming, tabId, stale)
  {
    forall x | x in current ensures Stays(x, Replaced(incoming, tabId, stale), tabId) == IsTheirs(x, incoming, tabId, stale)
    {
      if x.Item? && x.node.id in Ids(incoming) {
        var m :| m in incoming && m.id == x.node.id;
      }
    }
    KeptAre(current, Replaced(incoming, tabId, stale), tabId, (x: Item) => IsTheirs(x, incoming, tabId, stale));
  }

  /**
    Deploying keeps exactly the nodes of others, unchanged and in their order, and adds the bridge after them; deployed
    over the result, the nodes of others are the same again.
   */
  lemma {:induction false} MergeKeepsOthers(current: seq<Item>, incoming: seq<Node>, tabId: string, stale: set<string>)
    ensures var merged := MergeFlows(current, incoming, tabId, stale);
      && merged == Theirs(current, incoming, tabId, stale) + AsItems(incoming)
      && Theirs(merged, incoming, tabId, stale) == Theirs(current, incoming, tabId, stale)
  {
    var dropped := Replaced(incoming, tabId, stale);
    MergeKeepsTheirs(current, incoming, tabId, stale);
    MergeKeepsTheirs(MergeFlows(current, incoming, tabId, stale), incoming, tabId, stale);
    KeepConcat(Keep(current, dropped, tabId), AsItems(incoming), dropped, tabId);
    KeepAgain(current, dropped, dropped, tabId);
    KeepNone(incoming, dropped, tabId);
    assert Keep(current, dropped, tabId) + [] == Keep(current, dropped, tabId);
  }

  /** A stored node that taking a bridge out does not concern. */
  predicate IsApart(x: Item, configs: set<string>, tabId: string) {
    match x
    case Junk => false
    case Nameless(_, z) => z != Some(tabId)
    case Item(n) => n.z != Some(tabId) && n.id != tabId && n.id !in configs
  }

  /** Taking a bridge out keeps exactly those, unchanged and in their order. */
  lemma {:induction false} RemoveKeepsOthers(current: seq<Item>, configs: set<string>, tabId: string)
    ensures RemoveBridge(current, configs, tabId) == Those(current, (x: Item) => IsApart(x, configs, tabId))
  {
    KeptAre(current, configs + {tabId}, tabId, (x: Item) => IsApart(x, configs, tabId));
  }

  /** Deploying the same bridge again changes nothing. */
  lemma MergeIsIdempotent(current: seq<Item>, incoming: seq<Node>, tabId: string, stale: set<string>)
    ensures var merged := MergeFlows(current, incoming, tabId, stale);
      MergeFlows(merged, incoming, tabId, stale) == merged
  {
    MergeKeepsOthers(current, incoming, tabId, stale);
    MergeKeepsOthers(MergeFlows(current, incoming, tabId, stale), incoming, tabId, stale);
  }

  predicate UniqueIds(items: seq<Item>) {
    forall i, j :: 0 <= i < j < |items| && items[i].Item? && items[j].Item? ==> items[i].node.id != items[j].node.id
  }

  lemma UniqueTail(items: seq<Item>)
    requires items != [] && UniqueIds(items)
    ensures UniqueIds(items[1..])
    ensures items[0].Item? ==> forall x :: x in items[1..] && x.Item? ==> x.node.id != items[0].node.id
  {
    var rest := items[1..];
    forall i, j | 0 <= i < j < |rest| && rest[i].Item? && rest[j].Item? ensures rest[i].node.id != rest[j].node.id {
      assert rest[i] == items[i + 1] && rest[j] == items[j + 1];
    }
    forall x | x in rest && x.Item? && items[0].Item? ensures x.node.id != items[0].node.id {
      var i :| 0 <= i < |rest| && rest[i] == x;
      assert items[i + 1] == x;
    }
  }

  lemma {:induction false} KeepUnique(items: seq<Item>, dropped: set<string>, tabId: string)
    requires UniqueIds(items)
    ensures UniqueIds(Keep(items, dropped, tabId))
  {
    if items != [] {
      UniqueTail(items);
      KeepUnique(items[1..], dropped, tabId);
      KeepSpec(items[1..], dropped, tabId);
      UniqueCons(items[0], Keep(items[1..], dropped, tabId));
    }
  }

  lemma UniqueCons(x: Item, rest: seq<Item>)
    requires UniqueIds(rest)
    requires x.Item? ==> forall y :: y in rest && y.Item? ==> y.node.id != x.node.id
    ensures UniqueIds([x] + rest)
  {
  }

  /** Identities stay unique. */
  lemma MergeKeepsIdsUnique(
    current: seq<Item>, incoming: seq<Node>, fits: Node -> bool, stale: set<string>)
    requires UniqueIds(current) && Validate(incoming, fits).Success?
    ensures UniqueIds(MergeFlows(current, incoming, Validate(incoming, fits).value.tabId, stale))
  {
    var tabId := Validate(incoming, fits).value.tabId;
    var dropped := Replaced(incoming, tabId, stale);
    ValidFlowShape(incoming, fits);
    KeepUnique(current, dropped, tabId);
    KeepSpec(current, dropped, tabId);
    var kept, added := Keep(current, dropped, tabId), AsItems(incoming);
    var merged := kept + added;
    forall i, j | 0 <= i < j < |merged| && merged[i].Item? && merged[j].Item?
      ensures merged[i].node.id != merged[j].node.id
    {
      if i < |kept| <= j {
        assert kept[i] in kept && incoming[j - |kept|] in incoming;
      }
    }
  }

  lemma {:induction false} OnlyBrokerStays(flow: seq<Node>, shape: Shape, broker: Node -> bool)
    requires forall n :: n in flow ==> Belongs(n, shape)
    requires forall n :: broker(n) == n.kind.Broker?
    requires BROKER_ID !in shape.configIds && BROKER_ID != shape.tabId
    ensures Keep(AsItems(flow), shape.configIds + {shape.tabId}, shape.tabId) == AsItems(Those(flow, broker))
  {
    if flow != [] {
      assert flow[0] in flow;
      assert AsItems(flow)[1..] == AsItems(flow[1..]);
      OnlyBrokerStays(flow[1..], shape, broker);
      if flow[0].kind.Broker? {
        assert AsItems([flow[0]] + Those(flow[1..], broker)) == [Item(flow[0])] + AsItems(Those(flow[1..], broker));
      }
    }
  }

  lemma {:induction false} ClientsAreHex(
    flow: seq<Node>, tabId: string, ids: set<string>, configs: set<string>, fits: Node -> bool, n: Node)
    requires Check(flow, tabId, ids, configs, fits).Success? && n in flow && n.kind.Client?
    ensures IsHex16(n.id)
    decreases |flow|
  {
    if flow[0] != n {
      ClientsAreHex(
        flow[1..], tabId, ids + {flow[0].id}, if flow[0].kind.Client? then configs + {flow[0].id} else configs, fits, n);
    }
  }

  lemma BrokerIsNoConfig(flow: seq<Node>, fits: Node -> bool)
    requires Validate(flow, fits).Success?
    ensures var shape := Validate(flow, fits).value; BROKER_ID !in shape.configIds && BROKER_ID != shape.tabId
  {
    var shape := Validate(flow, fits).value;
    CheckSpec(flow, shape.tabId, {}, {}, fits);
    assert !IsHex16(BROKER_ID);
    if BROKER_ID in shape.configIds {
      var n :| n in flow && n.kind.Client? && n.id == BROKER_ID;
      ClientsAreHex(flow, shape.tabId, {}, {}, fits, n);
    }
  }

  /**
    Deploying a validated bridge and removing it leaves the nodes of others, unchanged and in order, followed by the
    broker node the bridge brought.
   */
  lemma {:induction false} DeployThenRemove(
    current: seq<Item>, incoming: seq<Node>, fits: Node -> bool, stale: set<string>)
    requires Validate(incoming, fits).Success?
    ensures var shape := Validate(incoming, fits).value;
      RemoveBridge(MergeFlows(current, incoming, shape.tabId, stale), shape.configIds, shape.tabId) ==
        Theirs(current, incoming, shape.tabId, stale) + AsItems(Those(incoming, (n: Node) => n.kind.Broker?))
  {
    var shape := Validate(incoming, fits).value;
    var dropped := Replaced(incoming, shape.tabId, stale);
    var drop := shape.configIds + {shape.tabId};
    ValidFlowShape(incoming, fits);
    BrokerIsNoConfig(incoming, fits);
    KeepConcat(Keep(current, dropped, shape.tabId), AsItems(incoming), drop, shape.tabId);
    KeepAgain(current, dropped, drop, shape.tabId);
    MergeKeepsTheirs(current, incoming, shape.tabId, stale);
    OnlyBrokerStays(incoming, shape, (n: Node) => n.kind.Broker?);
  }

  // ------------------------------------------------------------------ beside other editors

  /** The server's flows with their revision; a write with another revision is refused. */
  datatype Server = Server(revision: nat, flows: seq<Item>)

  /** What other editors save between a read and the write that follows it. */
  function Edited(server: Server, edits: seq<seq<Item>>): Server
    decreases |edits|
  {
    if edits == [] then server else Edited(Server(server.revision + 1, edits[0]), edits[1..])
  }

  lemma {:induction false} EditsShow(server: Server, edits: seq<seq<Item>>)
    ensures Edited(server, edits).revision == server.revision + |edits|
    decreases |edits|
  {
    if edits != [] { EditsShow(Server(server.revision + 1, edits[0]), edits[1..]); }
  }

  datatype Attempt = Attempt(before: seq<seq<Item>>, between: seq<seq<Item>>)

  /** Others save before the read and between read and write. */
  class NodeRed {
    var server: Server
    ghost var written: seq<(seq<Item>, seq<Item>)>

    constructor (flows: seq<Item>)
      ensures server == Server(0, flows) && written == []
    {
      server, written := Server(0, flows), [];
    }

    method OthersSave(edits: seq<seq<Item>>)
      modifies this`server
      ensures server == Edited(old(server), edits)
    {
      for i := 0 to |edits|
        invariant Edited(server, edits[i..]) == Edited(old(server), edits)
      {
        assert edits[i..][1..] == edits[i + 1..];
        server := Server(server.revision + 1, edits[i]);
      }
      assert edits[|edits|..] == [];
    }

    method SetFlows(flows: seq<Item>, revision: nat) returns (accepted: bool)
      modifies this
      ensures accepted == (old(server).revision == revision)
      ensures server == if accepted then Server(revision + 1, flows) else old(server)
      ensures written == if accepted then old(written) + [(old(server).flows, flows)] else old(written)
    {
      accepted := server.revision == revision;
      if accepted {
        written := written + [(server.flows, flows)];
        server := Server(revision + 1, flows);
      }
    }

    /**
      Read, merge, write; once more after a conflict. An accepted write is the merge of exactly the flows it
      replaces, so no save of another editor is lost.
     */
    method Deploy(incoming: seq<Node>, tabId: string, stale: set<string>, attempts: seq<Attempt>) returns (done: bool)
      requires |attempts| == 2
      modifies this
      ensures done ==> |written| == |old(written)| + 1 && written[..|old(written)|] == old(written)
      ensures done ==>
        var (before, after) := written[|written| - 1];
        after == MergeFlows(before, incoming, tabId, stale) && server.flows == after
      ensures !done ==> written == old(written)
      ensures done <==> attempts[0].between == [] || attempts[1].between == []
    {
      for attempt := 0 to 2
        invariant written == old(written)
        invariant forall k :: 0 <= k < attempt ==> attempts[k].between != []
      {
        OthersSave(attempts[attempt].before);
        var revision, current := server.revision, server.flows;
        var merged := MergeFlows(current, incoming, tabId, stale);
        EditsShow(server, attempts[attempt].between);
        OthersSave(attempts[attempt].between);
        var accepted := SetFlows(merged, revision);
        if accepted { return true; }
      }
      done := false;
    }

    /** Removing a bridge goes the same way. */
    method Remove(configs: set<string>, tabId: string, attempts: seq<Attempt>) returns (done: bool)
      requires |attempts| == 2
      modifies this
      ensures done ==> |written| == |old(written)| + 1 && written[..|old(written)|] == old(written)
      ensures done ==>
        var (before, after) := written[|written| - 1];
        after == RemoveBridge(before, configs, tabId) && server.flows == after
      ensures !done ==> written == old(written)
      ensures done <==> attempts[0].between == [] || attempts[1].between == []
    {
      for attempt := 0 to 2
        invariant written == old(written)
        invariant forall k :: 0 <= k < attempt ==> attempts[k].between != []
      {
        OthersSave(attempts[attempt].before);
        var revision, current := server.revision, server.flows;
        EditsShow(server, attempts[attempt].between);
        OthersSave(attempts[attempt].between);
        var accepted := SetFlows(RemoveBridge(current, configs, tabId), revision);
        if accepted { return true; }
      }
      done := false;
    }
  }
}
