/** Route discovery as a whole: honest nodes, static links, and a network that may delay, drop, reorder and
    repeat every message. */
module OverlayRuns {
  import opened Seqs
  import opened Overlay

  datatype Msg = Msg(from: Node, to: Node, payload: Payload)

  datatype Request = Request(origin: Node, target: Node, ttl: int)

  /** `soup` holds every message ever sent; any of them may be delivered, any number of times. `handled` records
      which node passed on or answered which request, in order. */
  datatype Net = Net(
    memory: map<Node, Memory>, soup: set<Msg>, requests: map<ReqId, Request>,
    handled: seq<(Node, ReqId)>, accepted: set<(ReqId, seq<Node>)>)

  datatype Step = Discover(origin: Node, reqId: ReqId, target: Node, ttl: int)
    | Deliver(msg: Msg) | TimeOut(node: Node, reqId: ReqId)

  type Topology = map<Node, seq<Node>>

  const START := Net(map[], {}, map[], [], {})

  function LinksOf(t: Topology, n: Node): seq<Node> {
    if n in t then t[n] else []
  }

  function MemoryOf(net: Net, n: Node): Memory {
    if n in net.memory then net.memory[n] else Memory({}, map[])
  }

  /** What goes out travels over the sender's own links; anything else is lost. */
  function Posted(t: Topology, from: Node, sent: seq<Sent>): set<Msg> {
    set x | x in sent && x.to in LinksOf(t, from) :: Msg(from, x.to, x.payload)
  }

  /** Request ids are drawn afresh. */
  predicate Enabled(net: Net, s: Step) {
    match s
    case Discover(_, reqId, _, _) => reqId !in net.requests
    case Deliver(msg) => msg in net.soup
    case TimeOut(_, _) => true
  }

  function DiscoverStep(t: Topology, net: Net, origin: Node, reqId: ReqId, target: Node, ttl: int): Net {
    var m := MemoryOf(net, origin);
    net.(memory := net.memory[origin := m.(pending := m.pending[reqId := target])],
      soup := net.soup + Posted(t, origin, Opening(LinksOf(t, origin), origin, reqId, target, ttl)),
      requests := net.requests[reqId := Request(origin, target, ttl)])
  }

  function DeliverStep(t: Topology, net: Net, msg: Msg): Net {
    var before := MemoryOf(net, msg.to);
    var (after, e) := Handle(msg.to, LinksOf(t, msg.to), before, msg.from, msg.payload);
    net.(memory := net.memory[msg.to := after],
      soup := net.soup + Posted(t, msg.to, e.sent),
      handled := if e.sent != [] && msg.payload.RouteReq?
        then net.handled + [(msg.to, msg.payload.reqId)] else net.handled,
      accepted := if e.resolved.Some? && msg.payload.RouteResp?
        then net.accepted + {(msg.payload.reqId, e.resolved.value)} else net.accepted)
  }

  function After(t: Topology, net: Net, s: Step): Net {
    match s
    case Discover(origin, reqId, target, ttl) => DiscoverStep(t, net, origin, reqId, target, ttl)
    case Deliver(msg) => DeliverStep(t, net, msg)
    case TimeOut(node, reqId) =>
      var m := MemoryOf(net, node);
      net.(memory := net.memory[node := m.(pending := m.pending - {reqId})])
  }

  function RunFrom(t: Topology, net: Net, steps: seq<Step>): Net {
    if steps == [] then net else After(t, RunFrom(t, net, steps[..|steps| - 1]), steps[|steps| - 1])
  }

  ghost predicate IsRun(t: Topology, net: Net, steps: seq<Step>) {
    steps == [] || (IsRun(t, net, steps[..|steps| - 1])
      && Enabled(RunFrom(t, net, steps[..|steps| - 1]), steps[|steps| - 1]))
  }

  // ---------------------------------------------------------------- the invariant

  /** Each node of the path is a link of the one before it, and none occurs twice. */
  ghost predicate SimplePath(t: Topology, path: seq<Node>) {
    NoDup(path) && forall i | 0 <= i < |path| - 1 :: path[i + 1] in LinksOf(t, path[i])
  }

  /** A request on its way: the nodes it has passed, with path length plus ttl constant. */
  ghost predicate GoodReq(t: Topology, net: Net, msg: Msg)
    requires msg.payload.RouteReq?
  {
    var p := msg.payload;
    && p.reqId in net.requests && var r := net.requests[p.reqId];
    && p.path != [] && SimplePath(t, p.path) && p.path[0] == r.origin && p.path[|p.path| - 1] == msg.from
    && p.target == r.target && |p.path| + p.ttl == r.ttl + 1
    && msg.to in LinksOf(t, msg.from)
    && |p.path| <= 7 && msg.to !in p.path[..|p.path| - 1]
  }

  /** From the end of the path back to place `j`, each node has a link to the one before it. */
  ghost predicate BackLinked(t: Topology, path: seq<Node>, j: nat) {
    forall i | j <= i < |path| - 1 :: path[i] in LinksOf(t, path[i + 1])
  }

  /** A complete route for a request. */
  ghost predicate Route(t: Topology, r: Request, path: seq<Node>) {
    && 2 <= |path| <= r.ttl + 1 && |path| <= 7
    && SimplePath(t, path) && path[0] == r.origin && path[|path| - 1] == r.target
  }

  /** A route the response can come back along. */
  ghost predicate TwoWayRoute(t: Topology, r: Request, path: seq<Node>) {
    Route(t, r, path) && BackLinked(t, path, 0)
  }

  /** A response that has come back as far as `node`. */
  ghost predicate CameBackTo(t: Topology, path: seq<Node>, node: Node) {
    exists j: nat :: j < |path| - 1 && path[j] == node && BackLinked(t, path, j)
  }

  ghost predicate GoodResp(t: Topology, net: Net, msg: Msg)
    requires msg.payload.RouteResp?
  {
    var p := msg.payload;
    && p.reqId in net.requests && Route(t, net.requests[p.reqId], p.path)
    && p.key == net.requests[p.reqId].target && p.sig == RouteSig(p.key, p.reqId, p.path)
    && CameBackTo(t, p.path, msg.to)
  }

  ghost predicate GoodMsg(t: Topology, net: Net, msg: Msg) {
    match msg.payload
    case RouteReq(_, _, _, _) => GoodReq(t, net, msg)
    case RouteResp(_, _, _, _) => GoodResp(t, net, msg)
    case Relay(_, _, _, _, _) => false
  }

  /** Only the origin waits for a request, and for its target. */
  ghost predicate GoodPending(net: Net) {
    forall n, r | n in net.memory && r in net.memory[n].pending ::
      r in net.requests && net.requests[r].origin == n && net.requests[r].target == net.memory[n].pending[r]
  }

  ghost predicate HandledOnce(net: Net) {
    && NoDup(net.handled)
    && (forall x | x in net.handled :: x.1 in MemoryOf(net, x.0).seen)
  }

  ghost predicate Inv(t: Topology, net: Net) {
    && (forall msg | msg in net.soup :: GoodMsg(t, net, msg))
    && (forall x | x in net.accepted :: x.0 in net.requests && TwoWayRoute(t, net.requests[x.0], x.1))
    && GoodPending(net) && HandledOnce(net)
  }

  // ---------------------------------------------------------------- steps keep it

  lemma {:induction false} ExtendPath(t: Topology, path: seq<Node>, n: Node)
    requires path != [] && SimplePath(t, path) && n !in path && n in LinksOf(t, path[|path| - 1])
    ensures SimplePath(t, path + [n])
  {
  }

  /** A request that is taken up: what goes out is a good request or a good response. */
  lemma {:induction false} ReqStep(t: Topology, net: Net, msg: Msg)
    requires msg.payload.RouteReq? && GoodReq(t, net, msg)
    ensures var r := HandleReq(msg.to, LinksOf(t, msg.to), MemoryOf(net, msg.to), msg.from, msg.payload);
      forall x | x in Posted(t, msg.to, r.1.sent) :: GoodMsg(t, net, x)
  {
    var p := msg.payload;
    var r := HandleReq(msg.to, LinksOf(t, msg.to), MemoryOf(net, msg.to), msg.from, p);
    var nextPath := p.path + [msg.to];
    if msg.to !in p.path {
      ExtendPath(t, p.path, msg.to);
    }
    if msg.from in LinksOf(t, msg.to) {
      assert BackLinked(t, nextPath, |p.path| - 1);
      assert CameBackTo(t, nextPath, msg.from);
    }
    OnwardMembers(LinksOf(t, msg.to), msg.from, RouteReq(p.reqId, p.target, p.ttl - 1, nextPath), p.path);
  }

  lemma {:induction false} RespStep(t: Topology, net: Net, msg: Msg)
    requires msg.payload.RouteResp? && GoodResp(t, net, msg)
    ensures var r := HandleResp(msg.to, MemoryOf(net, msg.to), msg.payload);
      && (forall x | x in Posted(t, msg.to, r.1.sent) :: GoodMsg(t, net, x))
      && (r.1.resolved.Some? ==> r.1.resolved.value == msg.payload.path && BackLinked(t, msg.payload.path, 0))
  {
    StepBack(t, msg.payload.path, msg.to);
  }

  /** Where a response is on its way back, and that it may go one place further. */
  lemma {:induction false} StepBack(t: Topology, path: seq<Node>, node: Node)
    requires NoDup(path) && CameBackTo(t, path, node)
    ensures var k := IndexOf(path, node);
      && 0 <= k < |path| - 1 && BackLinked(t, path, k) && (path[0] == node <==> k == 0)
      && (k > 0 && path[k - 1] in LinksOf(t, node) ==> CameBackTo(t, path, path[k - 1]))
  {
    var j: nat :| j < |path| - 1 && path[j] == node && BackLinked(t, path, j);
    OnlyPlace(path, j);
    if j > 0 && path[j - 1] in LinksOf(t, node) {
      assert BackLinked(t, path, j - 1);
    }
  }

  lemma {:induction false} OnlyPlace(path: seq<Node>, j: nat)
    requires NoDup(path) && j < |path|
    ensures IndexOf(path, path[j]) == j && (path[0] == path[j] <==> j == 0)
  {
    assert path[j] in path;
  }

  lemma {:induction false} GoodMsgStays(t: Topology, net: Net, net': Net, msg: Msg)
    requires GoodMsg(t, net, msg) &&
      forall r | r in net.requests :: r in net'.requests && net'.requests[r] == net.requests[r]
    ensures GoodMsg(t, net', msg)
  {
  }

  lemma {:induction false} DiscoverKeeps(t: Topology, net: Net, origin: Node, reqId: ReqId, target: Node, ttl: int)
    requires Inv(t, net) && reqId !in net.requests
    ensures Inv(t, DiscoverStep(t, net, origin, reqId, target, ttl))
  {
    var net' := DiscoverStep(t, net, origin, reqId, target, ttl);
    OpeningMembers(LinksOf(t, origin), origin, reqId, target, ttl);
    forall msg | msg in net'.soup ensures GoodMsg(t, net', msg) {
      if msg in net.soup {
        GoodMsgStays(t, net, net', msg);
      }
    }
  }

  lemma {:induction false} DeliverReqKeeps(t: Topology, net: Net, msg: Msg)
    requires Inv(t, net) && msg in net.soup && msg.payload.RouteReq?
    ensures Inv(t, DeliverStep(t, net, msg))
  {
    var net' := DeliverStep(t, net, msg);
    assert GoodMsg(t, net, msg);
    ReqStep(t, net, msg);
    DeliverReqHandles(t, net, msg);
    SoupStays(t, net, net');
    assert net'.accepted == net.accepted;
  }

  lemma {:induction false} DeliverRespKeeps(t: Topology, net: Net, msg: Msg)
    requires Inv(t, net) && msg in net.soup && msg.payload.RouteResp?
    ensures Inv(t, DeliverStep(t, net, msg))
  {
    assert GoodMsg(t, net, msg);
    RespStep(t, net, msg);
    SoupStays(t, net, DeliverStep(t, net, msg));
  }

  lemma {:induction false} DeliverKeeps(t: Topology, net: Net, msg: Msg)
    requires Inv(t, net) && msg in net.soup
    ensures Inv(t, DeliverStep(t, net, msg))
  {
    assert GoodMsg(t, net, msg);
    if msg.payload.RouteReq? {
      DeliverReqKeeps(t, net, msg);
    } else {
      DeliverRespKeeps(t, net, msg);
    }
  }

  lemma {:induction false} DeliverReqHandles(t: Topology, net: Net, msg: Msg)
    requires HandledOnce(net) && GoodPending(net) && msg.payload.RouteReq?
    ensures HandledOnce(DeliverStep(t, net, msg)) && GoodPending(DeliverStep(t, net, msg))
  {
  }

  lemma {:induction false} SoupStays(t: Topology, net: Net, net': Net)
    requires net'.requests == net.requests && forall x | x in net'.soup :: GoodMsg(t, net, x)
    ensures forall x | x in net'.soup :: GoodMsg(t, net', x)
  {
    forall x | x in net'.soup ensures GoodMsg(t, net', x) {
      GoodMsgStays(t, net, net', x);
    }
  }

  /** In every reachable state: requests in flight carry simple link paths from their origin with path length plus
      ttl constant, no node takes up a request twice, and accepted routes are simple link paths to the requested
      target with at most ttl + 1 (and at most seven) nodes. */
  lemma {:induction false} RunsKeepInv(t: Topology, steps: seq<Step>)
    requires IsRun(t, START, steps)
    ensures Inv(t, RunFrom(t, START, steps))
  {
    if steps != [] {
      var init := steps[..|steps| - 1];
      RunsKeepInv(t, init);
      var net := RunFrom(t, START, init);
      match steps[|steps| - 1]
      case Discover(origin, reqId, target, ttl) => DiscoverKeeps(t, net, origin, reqId, target, ttl);
      case Deliver(msg) => DeliverKeeps(t, net, msg);
      case TimeOut(node, reqId) =>
        var net' := After(t, net, TimeOut(node, reqId));
        forall msg | msg in net'.soup ensures GoodMsg(t, net', msg) {
          GoodMsgStays(t, net, net', msg);
        }
    }
  }

  /** Nobody waits any longer for a request that has got its route, and it has got only one. */
  ghost predicate AcceptedOnce(net: Net) {
    && (forall id, path, n | (id, path) in net.accepted :: id !in MemoryOf(net, n).pending)
    && (forall id, p, q | (id, p) in net.accepted && (id, q) in net.accepted :: p == q)
  }

  lemma {:induction false} OneAcceptance(t: Topology, net: Net, msg: Msg, id: ReqId, path: seq<Node>)
    requires (id, path) in DeliverStep(t, net, msg).accepted && (id, path) !in net.accepted
    ensures msg.payload.RouteResp? && id == msg.payload.reqId && path == msg.payload.path
    ensures id in MemoryOf(net, msg.to).pending && id !in MemoryOf(DeliverStep(t, net, msg), msg.to).pending
  {
  }

  lemma {:induction false} PendingShrinks(t: Topology, net: Net, msg: Msg, n: Node)
    ensures MemoryOf(DeliverStep(t, net, msg), n).pending.Keys <= MemoryOf(net, n).pending.Keys
  {
  }

  lemma {:induction false} OnlyOriginWaits(net: Net, n: Node, id: ReqId)
    requires GoodPending(net) && id in MemoryOf(net, n).pending
    ensures id in net.requests && n == net.requests[id].origin
  {
    assert n in net.memory;
  }

  lemma {:induction false} NobodyWaits(t: Topology, net: Net, msg: Msg, id: ReqId, path: seq<Node>, n: Node)
    requires GoodPending(net) && AcceptedOnce(net) && (id, path) in DeliverStep(t, net, msg).accepted
    ensures id !in MemoryOf(DeliverStep(t, net, msg), n).pending
  {
    PendingShrinks(t, net, msg, n);
    if (id, path) !in net.accepted {
      OneAcceptance(t, net, msg, id, path);
      OnlyOriginWaits(net, msg.to, id);
      if id in MemoryOf(net, n).pending {
        OnlyOriginWaits(net, n, id);
      }
    }
  }

  lemma {:induction false} DeliverAcceptsOnce(t: Topology, net: Net, msg: Msg)
    requires GoodPending(net) && AcceptedOnce(net)
    ensures AcceptedOnce(DeliverStep(t, net, msg))
  {
    var net' := DeliverStep(t, net, msg);
    forall id, path, n | (id, path) in net'.accepted ensures id !in MemoryOf(net', n).pending {
      NobodyWaits(t, net, msg, id, path, n);
    }
    forall id, p, q | (id, p) in net'.accepted && (id, q) in net'.accepted ensures p == q {
      if (id, p) !in net.accepted {
        OneAcceptance(t, net, msg, id, p);
      }
      if (id, q) !in net.accepted {
        OneAcceptance(t, net, msg, id, q);
      }
    }
  }

  /** A discovery ends with one route at most, and its origin has then stopped waiting. */
  lemma {:induction false} OneRoutePerDiscovery(t: Topology, steps: seq<Step>)
    requires IsRun(t, START, steps)
    ensures AcceptedOnce(RunFrom(t, START, steps))
  {
    if steps != [] {
      var init := steps[..|steps| - 1];
      var net := RunFrom(t, START, init);
      OneRoutePerDiscovery(t, init);
      RunsKeepInv(t, init);
      match steps[|steps| - 1]
      case Discover(_, reqId, _, _) =>
        forall n ensures MemoryOf(RunFrom(t, START, steps), n).pending.Keys <= MemoryOf(net, n).pending.Keys + {reqId} {
        }
      case Deliver(msg) => DeliverAcceptsOnce(t, net, msg);
      case TimeOut(_, _) =>
        forall n ensures MemoryOf(RunFrom(t, START, steps), n).pending.Keys <= MemoryOf(net, n).pending.Keys {
        }
    }
  }

  // ---------------------------------------------------------------- every such route can be found

  lemma {:induction false} RunStep(t: Topology, steps: seq<Step>, s: Step)
    requires IsRun(t, START, steps) && Enabled(RunFrom(t, START, steps), s)
    ensures IsRun(t, START, steps + [s])
    ensures RunFrom(t, START, steps + [s]) == After(t, RunFrom(t, START, steps), s)
  {
    assert (steps + [s])[..|steps|] == steps;
  }

  /** The request has travelled along `path` as far as node `i`, and nobody further on has seen it. */
  ghost predicate Outbound(net: Net, reqId: ReqId, r: Request, path: seq<Node>, i: nat)
    requires i + 1 < |path|
  {
    && Msg(path[i], path[i + 1], RouteReq(reqId, r.target, r.ttl - i, path[..i + 1])) in net.soup
    && (forall n | reqId in MemoryOf(net, n).seen :: n in path[1..i + 1])
    && reqId in MemoryOf(net, r.origin).pending && MemoryOf(net, r.origin).pending[reqId] == r.target
  }

  /** The response has travelled back to node `j`, and the origin still waits. */
  ghost predicate Inbound(net: Net, reqId: ReqId, r: Request, path: seq<Node>, j: nat)
    requires j < |path|
  {
    && (exists from :: Msg(from, path[j],
          RouteResp(reqId, path, r.target, RouteSig(r.target, reqId, path))) in net.soup)
    && reqId in MemoryOf(net, r.origin).pending && MemoryOf(net, r.origin).pending[reqId] == r.target
  }

  /** What node `i + 1` does with the request: it has not seen it, so it answers or sends it on to its successor. */
  lemma {:induction false} OutboundHandled(t: Topology, net: Net, reqId: ReqId, r: Request, path: seq<Node>, i: nat)
    requires TwoWayRoute(t, r, path) && i + 1 < |path| && Outbound(net, reqId, r, path, i)
    ensures var before := MemoryOf(net, path[i + 1]);
      var h := HandleReq(path[i + 1], LinksOf(t, path[i + 1]), before, path[i],
          RouteReq(reqId, r.target, r.ttl - i, path[..i + 1]));
      && h.0 == before.(seen := before.seen + {reqId})
      && if i + 2 < |path| then Sent(path[i + 2], RouteReq(reqId, r.target, r.ttl - (i + 1), path[..i + 2])) in h.1.sent
        else Sent(path[i], RouteResp(reqId, path, r.target, RouteSig(r.target, reqId, path))) in h.1.sent
  {
    var self, hops := path[i + 1], path[..i + 1];
    assert self !in hops && self !in path[1..i + 1];
    assert hops + [self] == path[..i + 2] && hops[|hops| - 1] == path[i];
    if i + 2 < |path| {
      assert path[i + 1 + 1] in LinksOf(t, path[i + 1]);
      OnwardMembers(LinksOf(t, self), path[i], RouteReq(reqId, r.target, r.ttl - (i + 1), path[..i + 2]), hops);
    } else {
      assert path[..i + 2] == path;
    }
  }

  lemma {:induction false} OutboundStep(t: Topology, net: Net, reqId: ReqId, r: Request, path: seq<Node>, i: nat)
    requires TwoWayRoute(t, r, path) && i + 1 < |path| && Outbound(net, reqId, r, path, i)
    ensures var net' := DeliverStep(t, net,
        Msg(path[i], path[i + 1], RouteReq(reqId, r.target, r.ttl - i, path[..i + 1])));
      if i + 2 < |path| then Outbound(net', reqId, r, path, i + 1) else Inbound(net', reqId, r, path, i)
  {
    var self := path[i + 1];
    var net' := DeliverStep(t, net, Msg(path[i], self, RouteReq(reqId, r.target, r.ttl - i, path[..i + 1])));
    OutboundHandled(t, net, reqId, r, path, i);
    assert path[1..i + 2] == path[1..i + 1] + [self];
    assert self != r.origin;
    forall n | reqId in MemoryOf(net', n).seen ensures n in path[1..i + 1 + 1] {
      assert n != self ==> MemoryOf(net', n) == MemoryOf(net, n) && n in path[1..i + 1];
    }
    if i + 2 < |path| {
      assert Msg(self, path[i + 2], RouteReq(reqId, r.target, r.ttl - (i + 1), path[..i + 2])) in net'.soup;
    } else {
      assert path[i] in LinksOf(t, path[i + 1]);
      assert Msg(self, path[i], RouteResp(reqId, path, r.target, RouteSig(r.target, reqId, path))) in net'.soup;
    }
  }

  lemma {:induction false} InboundStep(t: Topology, net: Net, reqId: ReqId, r: Request, path: seq<Node>, j: nat,
        from: Node)
    requires TwoWayRoute(t, r, path) && j < |path| && Inbound(net, reqId, r, path, j)
    requires Msg(from, path[j], RouteResp(reqId, path, r.target, RouteSig(r.target, reqId, path))) in net.soup
    ensures var net' := DeliverStep(t, net,
        Msg(from, path[j], RouteResp(reqId, path, r.target, RouteSig(r.target, reqId, path))));
      if j > 0 then Inbound(net', reqId, r, path, j - 1) else (reqId, path) in net'.accepted
  {
    var answer := RouteResp(reqId, path, r.target, RouteSig(r.target, reqId, path));
    var net' := DeliverStep(t, net, Msg(from, path[j], answer));
    if j > 0 {
      assert path[j] in path && IndexOf(path, path[j]) == j;
      assert Sent(path[j - 1], answer) in SendTo(path[j - 1], answer).sent;
      assert path[j - 1] in LinksOf(t, path[j - 1 + 1]);
      assert Msg(path[j], path[j - 1], answer) in net'.soup;
    }
  }

  lemma {:induction false} OpeningRun(t: Topology, reqId: ReqId, r: Request,
        path: seq<Node>) returns (steps: seq<Step>)
    requires TwoWayRoute(t, r, path)
    ensures IsRun(t, START, steps) && steps == [Discover(r.origin, reqId, r.target, r.ttl)]
    ensures Outbound(RunFrom(t, START, steps), reqId, r, path, 0)
  {
    RunStep(t, [], Discover(r.origin, reqId, r.target, r.ttl));
    steps := [Discover(r.origin, reqId, r.target, r.ttl)];
    assert [] + steps == steps;
    OpeningMembers(LinksOf(t, r.origin), r.origin, reqId, r.target, r.ttl);
    var first := Sent(path[1], RouteReq(reqId, r.target, r.ttl, [r.origin]));
    assert path[0 + 1] in LinksOf(t, path[0]);
    assert first in Opening(LinksOf(t, r.origin), r.origin, reqId, r.target, r.ttl);
    assert path[..1] == [r.origin];
  }

  /** Every simple path of two-way links to the target that fits the ttl can become the accepted route. */
  lemma {:induction false} EveryRouteCanBeFound(t: Topology, reqId: ReqId, r: Request,
        path: seq<Node>) returns (steps: seq<Step>)
    requires TwoWayRoute(t, r, path)
    ensures IsRun(t, START, steps) && steps != [] && steps[0] == Discover(r.origin, reqId, r.target, r.ttl)
    ensures (reqId, path) in RunFrom(t, START, steps).accepted
  {
    steps := OpeningRun(t, reqId, r, path);
    steps := AllTheWayOut(t, reqId, r, path, 0, steps);
    steps := AllTheWayBack(t, reqId, r, path, |path| - 2, steps);
  }

  lemma {:induction false} AllTheWayOut(t: Topology, reqId: ReqId, r: Request, path: seq<Node>, i: nat,
        steps: seq<Step>) returns (more: seq<Step>)
    requires TwoWayRoute(t, r, path) && i + 1 < |path| && IsRun(t, START, steps) && steps != []
    requires Outbound(RunFrom(t, START, steps), reqId, r, path, i)
    ensures IsRun(t, START, more) && more != [] && more[0] == steps[0]
    ensures Inbound(RunFrom(t, START, more), reqId, r, path, |path| - 2)
    decreases |path| - i
  {
    more := OutboundRun(t, reqId, r, path, i, steps);
    if i + 2 < |path| {
      more := AllTheWayOut(t, reqId, r, path, i + 1, more);
    }
  }

  lemma {:induction false} AllTheWayBack(t: Topology, reqId: ReqId, r: Request, path: seq<Node>, j: nat,
        steps: seq<Step>) returns (more: seq<Step>)
    requires TwoWayRoute(t, r, path) && j < |path| && IsRun(t, START, steps) && steps != []
    requires Inbound(RunFrom(t, START, steps), reqId, r, path, j)
    ensures IsRun(t, START, more) && more != [] && more[0] == steps[0]
    ensures (reqId, path) in RunFrom(t, START, more).accepted
    decreases j
  {
    more := InboundRun(t, reqId, r, path, j, steps);
    if j > 0 {
      more := AllTheWayBack(t, reqId, r, path, j - 1, more);
    }
  }

  lemma {:induction false} OutboundRun(t: Topology, reqId: ReqId, r: Request, path: seq<Node>, i: nat,
        steps: seq<Step>) returns (more: seq<Step>)
    requires TwoWayRoute(t, r, path) && i + 1 < |path| && IsRun(t, START, steps) && steps != []
    requires Outbound(RunFrom(t, START, steps), reqId, r, path, i)
    ensures IsRun(t, START, more) && more != [] && more[0] == steps[0]
    ensures if i + 2 < |path| then Outbound(RunFrom(t, START, more), reqId, r, path, i + 1)
      else Inbound(RunFrom(t, START, more), reqId, r, path, i)
  {
    var step := Deliver(Msg(path[i], path[i + 1], RouteReq(reqId, r.target, r.ttl - i, path[..i + 1])));
    RunStep(t, steps, step);
    OutboundStep(t, RunFrom(t, START, steps), reqId, r, path, i);
    more := steps + [step];
  }

  lemma {:induction false} InboundRun(t: Topology, reqId: ReqId, r: Request, path: seq<Node>, j: nat,
        steps: seq<Step>) returns (more: seq<Step>)
    requires TwoWayRoute(t, r, path) && j < |path| && IsRun(t, START, steps) && steps != []
    requires Inbound(RunFrom(t, START, steps), reqId, r, path, j)
    ensures IsRun(t, START, more) && more != [] && more[0] == steps[0]
    ensures if j > 0 then Inbound(RunFrom(t, START, more), reqId, r, path, j - 1)
      else (reqId, path) in RunFrom(t, START, more).accepted
  {
    var answer := RouteResp(reqId, path, r.target, RouteSig(r.target, reqId, path));
    var from :| Msg(from, path[j], answer) in RunFrom(t, START, steps).soup;
    RunStep(t, steps, Deliver(Msg(from, path[j], answer)));
    InboundStep(t, RunFrom(t, START, steps), reqId, r, path, j, from);
    more := steps + [Deliver(Msg(from, path[j], answer))];
  }

  lemma {:induction false} RequestStays(t: Topology, steps: seq<Step>, reqId: ReqId, r: Request)
    requires IsRun(t, START, steps) && steps != [] && steps[0] == Discover(r.origin, reqId, r.target, r.ttl)
    ensures reqId in RunFrom(t, START, steps).requests && RunFrom(t, START, steps).requests[reqId] == r
    decreases |steps|
  {
    if |steps| == 1 {
      assert steps[..0] == [];
    } else {
      RequestStays(t, steps[..|steps| - 1], reqId, r);
    }
  }

  ghost predicate CanAccept(t: Topology, reqId: ReqId, r: Request, path: seq<Node>) {
    exists steps :: IsRun(t, START, steps) && steps != [] && steps[0] == Discover(r.origin, reqId, r.target, r.ttl)
      && (reqId, path) in RunFrom(t, START, steps).accepted
  }

  /** The routes a discovery can end with are exactly the simple paths from origin to target, linked both ways, with
      at most ttl + 1 and at most seven nodes. */
  lemma {:induction false} AcceptableRoutesExactly(t: Topology, reqId: ReqId, r: Request, path: seq<Node>)
    ensures CanAccept(t, reqId, r, path) <==> TwoWayRoute(t, r, path)
  {
    if CanAccept(t, reqId, r, path) {
      var steps :| IsRun(t, START, steps) && steps != [] && steps[0] == Discover(r.origin, reqId, r.target, r.ttl)
        && (reqId, path) in RunFrom(t, START, steps).accepted;
      RunsKeepInv(t, steps);
      RequestStays(t, steps, reqId, r);
    }
    if TwoWayRoute(t, r, path) {
      var steps := EveryRouteCanBeFound(t, reqId, r, path);
    }
  }

  /** A link joins two nodes for both. */
  ghost predicate Symmetric(t: Topology) {
    forall m, n | n in LinksOf(t, m) :: m in LinksOf(t, n)
  }

  /** With links that work both ways these are exactly the simple link paths within the bounds. */
  lemma {:induction false} SymmetricRoutesExactly(t: Topology, reqId: ReqId, r: Request, path: seq<Node>)
    requires Symmetric(t)
    ensures CanAccept(t, reqId, r, path) <==> Route(t, r, path)
  {
    AcceptableRoutesExactly(t, reqId, r, path);
    if Route(t, r, path) {
      forall i | 0 <= i < |path| - 1 ensures path[i] in LinksOf(t, path[i + 1]) {
        assert path[i + 1] in LinksOf(t, path[i]);
      }
    }
  }
}
