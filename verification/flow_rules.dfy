/** Which Node-RED flows are accepted for a gateway: the rules, one by one, and that they are the check. */
module FlowRules {
  import opened Common
  import opened NodeRedFlows

  /** Sixteen digits or letters from a to f, and perhaps a line feed. */
  ghost predicate IsName(s: string) {
    && |s| >= 16 && (s[16..] == "" || s[16..] == "\n")
    && forall i :: 0 <= i < 16 ==> s[i] in "0123456789abcdef"
  }

  predicate Begins(topic: string) {
    "ac/" <= topic || "curtain/" <= topic || "lock/" <= topic || "rexlite/nodered/" <= topic
  }

  /** A node's settings stay with the bridge: its gateway, its broker, its topics, the flow's own clients. */
  ghost predicate StaysInside(flow: seq<Node>, gateway: Gateway, settings: Settings) {
    match settings
    case Plain(_) => true
    case Code(size) => size <= 32768
    case Mqtt(broker, topic) => broker == "rexlite_mqtt_broker" && (topic == "" || Begins(topic))
    case Tcp(server, port) => server == gateway.host && port == gateway.port
    case Flex(client) => exists n :: n in flow && n.kind.Client? && client == Some(n.id)
    case ModbusClient(kind, host, port) => kind == "tcp" && host == gateway.host && port == gateway.port
  }

  ghost predicate Allowed(flow: seq<Node>, gateway: Gateway, tabId: string, n: Node) {
    && n.id != "" && !n.credentials
    && match n.kind
       case Tab => n.id == tabId
       case Broker => n.z == None && n.id == "rexlite_mqtt_broker"
       case Client => n.z == None && IsName(n.id) && n.settings.ModbusClient? && StaysInside(flow, gateway, n.settings)
       case Worker => n.z == Some(tabId) && StaysInside(flow, gateway, n.settings)
       case Foreign => false
  }

  /** One tab, named as a bridge, and everything else its own. */
  ghost predicate IsBridge(flow: seq<Node>, gateway: Gateway, tabId: string) {
    && 2 <= |flow| <= 200 && IsName(tabId)
    && (exists n :: n in flow && n.kind.Tab? && n.id == tabId && "RexLite" <= n.title)
    && (exists n :: n in flow && n.id == "rexlite_mqtt_broker")
    && (forall i, j :: 0 <= i < j < |flow| ==> flow[i].id != flow[j].id)
    && forall n :: n in flow ==> Allowed(flow, gateway, tabId, n)
  }

  // ------------------------------------------------------------------------- proofs

  lemma NamesAre(s: string)
    ensures IsHex16(s) <==> IsName(s)
  {
    forall c: char ensures IsHexDigit(c) <==> c in "0123456789abcdef" { DigitsAre(c); }
    hide IsHexDigit;
    if |s| >= 16 {
      assert |s| == 16 <==> s[16..] == "";
      assert |s| == 17 && s[16] == '\n' <==> s[16..] == "\n";
    }
  }

  lemma DigitsAre(c: char)
    ensures IsHexDigit(c) <==> c in "0123456789abcdef"
  {
  }

  lemma TopicsAre(topic: string)
    ensures HasPrefix(topic) <==> Begins(topic)
  {
    var p := TOPIC_PREFIXES;
    assert p[0] == "ac/" && p[1] == "curtain/" && p[2] == "lock/" && p[3] == "rexlite/nodered/" && |p| == 4;
    if Begins(topic) {
      var i := if p[0] <= topic then 0 else if p[1] <= topic then 1 else if p[2] <= topic then 2 else 3;
      assert p[i] <= topic;
    }
  }

  lemma FitsAre(flow: seq<Node>, gateway: Gateway, n: Node)
    ensures Fits(gateway, Clients(flow), n) <==>
      (n.kind.Client? ==> n.settings.ModbusClient?) && StaysInside(flow, gateway, n.settings)
  {
    if n.settings.Mqtt? { TopicsAre(n.settings.topic); }
    hide HasPrefix;
    hide Begins;
  }

  /** What the check says of one node that repeats no identity. */
  ghost predicate Passes(n: Node, tabId: string, fits: Node -> bool) {
    && n.id != "" && !n.credentials
    && match n.kind
       case Tab => true
       case Broker => n.z == None && n.id == BROKER_ID
       case Client => n.z == None && IsHex16(n.id) && fits(n)
       case Worker => n.z == Some(tabId) && fits(n)
       case Foreign => false
  }

  lemma ProblemIs(n: Node, tabId: string, ids: set<string>, fits: Node -> bool)
    ensures NodeProblem(n, tabId, ids, fits).None? <==> n.id !in ids && Passes(n, tabId, fits)
  {
    hide IsHex16;
  }

  lemma {:induction false} CheckExactly(
    flow: seq<Node>, tabId: string, ids: set<string>, configs: set<string>, fits: Node -> bool)
    ensures Check(flow, tabId, ids, configs, fits).Success? <==>
      && DistinctIds(flow) && ids !! Ids(flow) && forall n :: n in flow ==> Passes(n, tabId, fits)
    decreases |flow|
  {
    hide Passes;
    hide NodeProblem;
    if flow != [] {
      var n, rest := flow[0], flow[1..];
      assert flow == [n] + rest;
      assert Ids(flow) == {n.id} + Ids(rest);
      ProblemIs(n, tabId, ids, fits);
      if NodeProblem(n, tabId, ids, fits).None? {
        CheckExactly(rest, tabId, ids + {n.id}, if n.kind.Client? then configs + {n.id} else configs, fits);
        DistinctFirst(n, rest);
      }
    }
  }

  lemma DistinctFirst(n: Node, rest: seq<Node>)
    ensures DistinctIds([n] + rest) <==> DistinctIds(rest) && n.id !in Ids(rest)
  {
    var flow := [n] + rest;
    if DistinctIds(flow) {
      forall i, j | 0 <= i < j < |rest| ensures rest[i].id != rest[j].id {
        assert flow[i + 1].id != flow[j + 1].id;
      }
      forall m | m in rest ensures m.id != n.id {
        var i :| 0 <= i < |rest| && rest[i] == m;
        assert flow[i + 1] == m && flow[0] == n;
      }
    }
    if DistinctIds(rest) && n.id !in Ids(rest) {
      forall i, j | 0 <= i < j < |flow| ensures flow[i].id != flow[j].id {
        if i > 0 { assert rest[i - 1].id != rest[j - 1].id; } else { assert rest[j - 1] in rest; }
      }
    }
  }

  /** With identities distinct, one tab is what is left of the tabs. */
  lemma {:induction false} TabsOfOne(flow: seq<Node>, tabId: string)
    requires DistinctIds(flow) && forall n :: n in flow && n.kind.Tab? ==> n.id == tabId
    ensures |Tabs(flow)| <= 1
  {
    if flow != [] {
      var n, rest := flow[0], flow[1..];
      assert flow == [n] + rest;
      DistinctFirst(n, rest);
      TabsOfOne(rest, tabId);
      OnlyTab(rest);
      assert n in flow;
      forall m | m in Tabs(rest) ensures m.id == tabId && m.id in Ids(rest) { assert m in rest && m in flow; }
      assert Tabs(rest) != [] ==> Tabs(rest)[0] in Tabs(rest);
    }
  }

  lemma {:induction false} ClientsOf(flow: seq<Node>, tabId: string, fits: Node -> bool, c: string)
    requires Check(flow, tabId, {}, {}, fits).Success?
    ensures c in Check(flow, tabId, {}, {}, fits).value.1 <==> exists n :: n in flow && n.kind.Client? && n.id == c
  {
    CheckSpec(flow, tabId, {}, {}, fits);
  }

  lemma AcceptedIsBridge(flow: seq<Node>, gateway: Gateway)
    requires Verdict(flow, gateway).Success?
    ensures IsBridge(flow, gateway, Verdict(flow, gateway).value.tabId)
  {
    var fits := n => Fits(gateway, Clients(flow), n);
    var tab := Tabs(flow)[0];
    OnlyTab(flow);
    assert tab in Tabs(flow);
    CheckExactly(flow, tab.id, {}, {}, fits);
    CheckSpec(flow, tab.id, {}, {}, fits);
    assert BROKER_ID in Ids(flow);
    NamesAre(tab.id);
    hide IsHex16;
    hide IsName;
    hide Fits;
    hide StaysInside;
    hide Check;
    forall n | n in flow ensures Allowed(flow, gateway, tab.id, n) {
      NamesAre(n.id);
      FitsAre(flow, gateway, n);
      assert Passes(n, tab.id, fits);
      if n.kind.Tab? {
        assert n in Tabs(flow) && Tabs(flow) == [tab];
      }
    }
  }

  lemma BridgeIsAccepted(flow: seq<Node>, gateway: Gateway, tabId: string)
    requires IsBridge(flow, gateway, tabId)
    ensures Verdict(flow, gateway).Success? && Verdict(flow, gateway).value.tabId == tabId
  {
    var fits := n => Fits(gateway, Clients(flow), n);
    NamesAre(tabId);
    OnlyTab(flow);
    hide IsHex16;
    hide IsName;
    hide Fits;
    hide StaysInside;
    hide Check;
    forall n | n in flow ensures Passes(n, tabId, fits) && (n.kind.Tab? ==> n.id == tabId) {
      NamesAre(n.id);
      FitsAre(flow, gateway, n);
      assert Allowed(flow, gateway, tabId, n);
    }
    CheckExactly(flow, tabId, {}, {}, fits);
    CheckSpec(flow, tabId, {}, {}, fits);
    TabsOfOne(flow, tabId);
    var tab :| tab in flow && tab.kind.Tab? && tab.id == tabId && "RexLite" <= tab.title;
    assert tab in Tabs(flow) && Tabs(flow) == [tab];
    var b :| b in flow && b.id == "rexlite_mqtt_broker";
    assert b.id in Ids(flow);
  }

  /**
    A flow is accepted for a gateway exactly when it is a bridge of it: one tab with a bridge's name and title, distinct
    identities without credentials, and nodes that lie on that tab or configure it, each with settings of its own.
   */
  lemma AcceptedExactly(flow: seq<Node>, gateway: Gateway)
    ensures var verdict := Verdict(flow, gateway);
      && (verdict.Success? <==> exists tabId :: IsBridge(flow, gateway, tabId))
      && (verdict.Success? ==>
            && IsBridge(flow, gateway, verdict.value.tabId)
            && verdict.value.configIds == set n | n in flow && n.kind.Client? :: n.id)
  {
    hide IsBridge;
    if Verdict(flow, gateway).Success? {
      AcceptedIsBridge(flow, gateway);
      var fits := n => Fits(gateway, Clients(flow), n);
      var shape := Verdict(flow, gateway).value;
      forall c ensures c in shape.configIds <==> exists n :: n in flow && n.kind.Client? && n.id == c {
        ClientsOf(flow, shape.tabId, fits, c);
      }
    }
    if tabId :| IsBridge(flow, gateway, tabId) { BridgeIsAccepted(flow, gateway, tabId); }
  }
}
