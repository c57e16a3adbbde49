/** Relays and routes among nodes that may send anything: what a delivered body and an accepted route prove. */
module OverlayTrust {
  import opened Seqs
  import opened Overlay
  import Runs = OverlayRuns

  /** The network with every delivery to a listener recorded: at which node, and what. */
  datatype Net = Net(base: Runs.Net, delivered: set<(Node, Delivery)>)

  /** Nodes follow the protocol, issue relays, and besides may send any payload whatever. */
  datatype Step =
    | Follow(step: Runs.Step)
    | IssueRelay(node: Node, path: seq<Node>, body: Body)
    | Forge(from: Node, to: Node, payload: Payload)

  const START := Net(Runs.START, {})

  function SigOf(p: Payload): Option<Signature> {
    if p.RouteReq? then None else Some(p.sig)
  }

  ghost predicate OnWire(net: Net, sig: Signature) {
    exists msg :: msg in net.base.soup && SigOf(msg.payload) == Some(sig)
  }

  /** A payload may be made up freely, except for its signature: that is the sender's own or one seen on the wire. */
  ghost predicate Enabled(net: Net, s: Step) {
    match s
    case Follow(step) => Runs.Enabled(net.base, step)
    case IssueRelay(_, _, _) => true
    case Forge(from, _, p) => p.RouteReq? || p.sig.signer == from || OnWire(net, p.sig)
  }

  function FirstHop(t: Runs.Topology, from: Node, out: Option<Sent>): set<Runs.Msg> {
    if out.Some? then Runs.Posted(t, from, [out.value]) else {}
  }

  function Heard(t: Runs.Topology, net: Net, msg: Runs.Msg): set<(Node, Delivery)> {
    var e := Handle(msg.to, Runs.LinksOf(t, msg.to), Runs.MemoryOf(net.base, msg.to), msg.from, msg.payload).1;
    if e.delivered.Some? then {(msg.to, e.delivered.value)} else {}
  }

  function After(t: Runs.Topology, net: Net, s: Step): Net {
    match s
    case Follow(step) =>
      Net(Runs.After(t, net.base, step), net.delivered + if step.Deliver? then Heard(t, net, step.msg) else {})
    case IssueRelay(node, path, body) =>
      net.(base := net.base.(soup := net.base.soup + FirstHop(t, node, RelayOut(node, path, body))))
    case Forge(from, to, p) => net.(base := net.base.(soup := net.base.soup + {Runs.Msg(from, to, p)}))
  }

  function RunFrom(t: Runs.Topology, steps: seq<Step>): Net {
    if steps == [] then START else After(t, RunFrom(t, steps[..|steps| - 1]), steps[|steps| - 1])
  }

  ghost predicate IsRun(t: Runs.Topology, steps: seq<Step>) {
    steps == [] || (IsRun(t, steps[..|steps| - 1])
      && Enabled(RunFrom(t, steps[..|steps| - 1]), steps[|steps| - 1]))
  }

  // ---------------------------------------------------------------- who made a signature

  /** The step by which a node issues the relay of this body along this path. */
  predicate Issues(s: Step, node: Node, path: seq<Node>, body: Body) {
    || s == IssueRelay(node, path, body)
    || (s.Forge? && s.from == node && SigOf(s.payload) == Some(RelaySig(node, path, body)))
  }

  /** The step by which a node is handed a request for itself that has come along the rest of this path. */
  predicate Answers(s: Step, node: Node, id: ReqId, path: seq<Node>) {
    && s.Follow? && s.step.Deliver? && s.step.msg.to == node && s.step.msg.payload.RouteReq?
    && s.step.msg.payload.reqId == id && s.step.msg.payload.target == node
    && path == s.step.msg.payload.path + [node]
  }

  /** The step by which a node signs the route that ends with it: it answers the request, or sends the signature. */
  predicate SignsRoute(s: Step, node: Node, id: ReqId, path: seq<Node>) {
    Answers(s, node, id, path)
    || (s.Forge? && s.from == node && SigOf(s.payload) == Some(RouteSig(node, id, path)))
  }

  predicate Makes(s: Step, sig: Signature) {
    match sig
    case RouteSig(signer, id, path) => SignsRoute(s, signer, id, path)
    case RelaySig(signer, path, body) => Issues(s, signer, path, body)
  }

  ghost predicate Made(steps: seq<Step>, sig: Signature) {
    exists s :: s in steps && Makes(s, sig)
  }

  ghost predicate Asked(steps: seq<Step>, node: Node, id: ReqId, target: Node) {
    exists ttl :: Follow(Runs.Discover(node, id, target, ttl)) in steps
  }

  // ---------------------------------------------------------------- what every run keeps

  ghost predicate SignaturesMade(steps: seq<Step>, net: Net) {
    forall msg | msg in net.base.soup && SigOf(msg.payload).Some? :: Made(steps, SigOf(msg.payload).value)
  }

  ghost predicate GoodDelivery(steps: seq<Step>, n: Node, d: Delivery) {
    d.path != [] && d.path[|d.path| - 1] == n && Made(steps, RelaySig(d.path[0], d.path, d.body))
  }

  ghost predicate GoodAcceptance(steps: seq<Step>, id: ReqId, path: seq<Node>) {
    |path| >= 2 && Asked(steps, path[0], id, path[|path| - 1]) && Made(steps, RouteSig(path[|path| - 1], id, path))
  }

  ghost predicate Inv(steps: seq<Step>, net: Net) {
    && SignaturesMade(steps, net)
    && (forall n, d | (n, d) in net.delivered :: GoodDelivery(steps, n, d))
    && (forall id, path | (id, path) in net.base.accepted :: GoodAcceptance(steps, id, path))
    && (forall n, id | id in Runs.MemoryOf(net.base, n).pending ::
        Asked(steps, n, id, Runs.MemoryOf(net.base, n).pending[id]))
  }

  /** More steps take nothing back. */
  lemma {:induction false} InvStays(steps: seq<Step>, s: Step, net: Net)
    requires Inv(steps, net)
    ensures Inv(steps + [s], net)
  {
    forall sig | Made(steps, sig) ensures Made(steps + [s], sig) {
      var x :| x in steps && Makes(x, sig);
      assert x in steps + [s];
    }
    forall n, id, target | Asked(steps, n, id, target) ensures Asked(steps + [s], n, id, target) {
      var ttl :| Follow(Runs.Discover(n, id, target, ttl)) in steps;
      assert Follow(Runs.Discover(n, id, target, ttl)) in steps + [s];
    }
  }

  /** What a delivery sends on is unsigned, carries the signature it came with, or is the answer of the target. */
  lemma {:induction false} SentOnSigned(t: Runs.Topology, net: Runs.Net, msg: Runs.Msg, x: Runs.Msg)
    requires x in Runs.DeliverStep(t, net, msg).soup && x !in net.soup
    ensures SigOf(x.payload).None? || SigOf(x.payload) == SigOf(msg.payload)
      || Makes(Follow(Runs.Deliver(msg)), SigOf(x.payload).value)
  {
    if msg.payload.RouteReq? {
      OnwardMembers(Runs.LinksOf(t, msg.to), msg.from, RouteReq(msg.payload.reqId, msg.payload.target,
        msg.payload.ttl - 1, msg.payload.path + [msg.to]), msg.payload.path);
    }
  }

  lemma {:induction false} LastMakes(steps: seq<Step>, s: Step, sig: Signature)
    requires Makes(s, sig)
    ensures Made(steps + [s], sig)
  {
    assert s in steps + [s];
  }

  lemma {:induction false} DeliverSigned(t: Runs.Topology, steps: seq<Step>, net: Net, msg: Runs.Msg)
    requires Inv(steps, net) && msg in net.base.soup
    ensures SignaturesMade(steps + [Follow(Runs.Deliver(msg))], After(t, net, Follow(Runs.Deliver(msg))))
  {
    var s := Follow(Runs.Deliver(msg));
    var net' := After(t, net, s);
    InvStays(steps, s, net);
    forall x | x in net'.base.soup && SigOf(x.payload).Some? ensures Made(steps + [s], SigOf(x.payload).value) {
      if x !in net.base.soup {
        SentOnSigned(t, net.base, msg, x);
        if SigOf(x.payload) != SigOf(msg.payload) {
          LastMakes(steps, s, SigOf(x.payload).value);
        }
      }
    }
  }

  /** Only a rightly signed relay is delivered, and at the end of its path. */
  lemma {:induction false} HeardIsSigned(t: Runs.Topology, net: Net, msg: Runs.Msg, n: Node, d: Delivery)
    requires (n, d) in Heard(t, net, msg)
    ensures d.path != [] && d.path[|d.path| - 1] == n
    ensures SigOf(msg.payload) == Some(RelaySig(d.path[0], d.path, d.body))
  {
  }

  /** A route is accepted where it starts, by a node that waits for its end, and rightly signed by that end. */
  lemma {:induction false} AcceptedIsSigned(t: Runs.Topology, net: Runs.Net, msg: Runs.Msg, id: ReqId, path: seq<Node>)
    requires (id, path) in Runs.DeliverStep(t, net, msg).accepted && (id, path) !in net.accepted
    ensures |path| >= 2 && SigOf(msg.payload) == Some(RouteSig(path[|path| - 1], id, path))
    ensures id in Runs.MemoryOf(net, path[0]).pending
    ensures Runs.MemoryOf(net, path[0]).pending[id] == path[|path| - 1]
  {
  }

  lemma {:induction false} PendingKept(t: Runs.Topology, net: Runs.Net, msg: Runs.Msg, n: Node, id: ReqId)
    requires id in Runs.MemoryOf(Runs.DeliverStep(t, net, msg), n).pending
    ensures id in Runs.MemoryOf(net, n).pending
    ensures Runs.MemoryOf(Runs.DeliverStep(t, net, msg), n).pending[id] == Runs.MemoryOf(net, n).pending[id]
  {
  }

  lemma {:induction false} DeliverKeeps(t: Runs.Topology, steps: seq<Step>, net: Net, msg: Runs.Msg)
    requires Inv(steps, net) && msg in net.base.soup
    ensures Inv(steps + [Follow(Runs.Deliver(msg))], After(t, net, Follow(Runs.Deliver(msg))))
  {
    var s := Follow(Runs.Deliver(msg));
    var net', steps' := After(t, net, s), steps + [s];
    InvStays(steps, s, net);
    DeliverSigned(t, steps, net, msg);
    forall n, d | (n, d) in net'.delivered ensures GoodDelivery(steps', n, d) {
      if (n, d) !in net.delivered {
        HeardIsSigned(t, net, msg, n, d);
      }
    }
    forall id, path | (id, path) in net'.base.accepted ensures GoodAcceptance(steps', id, path) {
      if (id, path) !in net.base.accepted {
        AcceptedIsSigned(t, net.base, msg, id, path);
      }
    }
    forall n, id | id in Runs.MemoryOf(net'.base, n).pending
      ensures Asked(steps', n, id, Runs.MemoryOf(net'.base, n).pending[id])
    {
      PendingKept(t, net.base, msg, n, id);
    }
  }

  lemma {:induction false} DiscoverKeeps(t: Runs.Topology, steps: seq<Step>, net: Net, step: Runs.Step)
    requires Inv(steps, net) && step.Discover?
    ensures Inv(steps + [Follow(step)], After(t, net, Follow(step)))
  {
    var net', steps' := After(t, net, Follow(step)), steps + [Follow(step)];
    InvStays(steps, Follow(step), net);
    OpeningMembers(Runs.LinksOf(t, step.origin), step.origin, step.reqId, step.target, step.ttl);
    assert Follow(Runs.Discover(step.origin, step.reqId, step.target, step.ttl)) in steps';
    forall n, id | id in Runs.MemoryOf(net'.base, n).pending
      ensures Asked(steps', n, id, Runs.MemoryOf(net'.base, n).pending[id])
    {
      if n != step.origin || id != step.reqId {
        assert id in Runs.MemoryOf(net.base, n).pending;
      }
    }
  }

  lemma {:induction false} TimeOutKeeps(t: Runs.Topology, steps: seq<Step>, net: Net, step: Runs.Step)
    requires Inv(steps, net) && step.TimeOut?
    ensures Inv(steps + [Follow(step)], After(t, net, Follow(step)))
  {
    var net' := After(t, net, Follow(step));
    InvStays(steps, Follow(step), net);
    assert net'.base.soup == net.base.soup && net'.base.accepted == net.base.accepted;
    forall n, id | id in Runs.MemoryOf(net'.base, n).pending
      ensures Asked(steps + [Follow(step)], n, id, Runs.MemoryOf(net'.base, n).pending[id])
    {
      assert id in Runs.MemoryOf(net.base, n).pending;
    }
  }

  lemma {:induction false} SendKeeps(t: Runs.Topology, steps: seq<Step>, net: Net, s: Step)
    requires Inv(steps, net) && Enabled(net, s) && !s.Follow?
    ensures Inv(steps + [s], After(t, net, s))
  {
    var net', steps' := After(t, net, s), steps + [s];
    InvStays(steps, s, net);
    assert forall n :: Runs.MemoryOf(net'.base, n) == Runs.MemoryOf(net.base, n);
    forall msg | msg in net'.base.soup && SigOf(msg.payload).Some? ensures Made(steps', SigOf(msg.payload).value) {
      if msg !in net.base.soup {
        if s.Forge? && s.payload.sig.signer != s.from {
          assert OnWire(net, s.payload.sig);
        } else {
          LastMakes(steps, s, SigOf(msg.payload).value);
        }
      }
    }
  }

  /** Whatever nodes send: every signature on the wire was made by its signer, every body delivered and every route
      accepted is covered by one, and a node waits only for what it asked for. */
  lemma {:induction false} RunsKeepTrust(t: Runs.Topology, steps: seq<Step>)
    requires IsRun(t, steps)
    ensures Inv(steps, RunFrom(t, steps))
  {
    if steps != [] {
      var init, s := steps[..|steps| - 1], steps[|steps| - 1];
      var net := RunFrom(t, init);
      RunsKeepTrust(t, init);
      assert steps == init + [s];
      match s
      case Follow(step) =>
        match step {
          case Discover(_, _, _, _) => DiscoverKeeps(t, init, net, step);
          case Deliver(msg) => DeliverKeeps(t, init, net, msg);
          case TimeOut(_, _) => TimeOutKeeps(t, init, net, step);
        }
      case IssueRelay(_, _, _) => SendKeeps(t, init, net, s);
      case Forge(_, _, _) => SendKeeps(t, init, net, s);
    }
  }

  // ---------------------------------------------------------------- what a delivery and a route prove

  /** A body is delivered only at the end of its path, and only if the node the path starts with issued just this body
      along just this path. A node that sends nothing of its own making did so by relaying it. */
  lemma {:induction false} DeliveredWasIssued(t: Runs.Topology, steps: seq<Step>, n: Node, d: Delivery)
    requires IsRun(t, steps) && (n, d) in RunFrom(t, steps).delivered
    ensures d.path != [] && d.path[|d.path| - 1] == n
    ensures exists s :: s in steps && Issues(s, d.path[0], d.path, d.body)
    ensures (forall s | s in steps && s.Forge? :: s.from != d.path[0])
      ==> IssueRelay(d.path[0], d.path, d.body) in steps
  {
    RunsKeepTrust(t, steps);
    assert GoodDelivery(steps, n, d);
    var s :| s in steps && Makes(s, RelaySig(d.path[0], d.path, d.body));
    assert Issues(s, d.path[0], d.path, d.body);
  }

  /** A route is accepted only if the node it starts with asked for the node it ends with, and that node signed it for
      this request. A node that sends nothing of its own making did so by answering a request that had come this way. */
  lemma {:induction false} AcceptedWasSigned(t: Runs.Topology, steps: seq<Step>, id: ReqId, path: seq<Node>)
    requires IsRun(t, steps) && (id, path) in RunFrom(t, steps).base.accepted
    ensures |path| >= 2 && Asked(steps, path[0], id, path[|path| - 1])
    ensures exists s :: s in steps && SignsRoute(s, path[|path| - 1], id, path)
    ensures (forall s | s in steps && s.Forge? :: s.from != path[|path| - 1]) ==>
      exists s :: s in steps && Answers(s, path[|path| - 1], id, path)
  {
    RunsKeepTrust(t, steps);
    assert GoodAcceptance(steps, id, path);
    var s :| s in steps && Makes(s, RouteSig(path[|path| - 1], id, path));
    assert SignsRoute(s, path[|path| - 1], id, path);
  }

  // ---------------------------------------------------------------- and every relay can arrive

  /** Each node of the path is a link of the one before. */
  ghost predicate Linked(t: Runs.Topology, path: seq<Node>) {
    forall i | 0 <= i < |path| - 1 :: path[i + 1] in Runs.LinksOf(t, path[i])
  }

  /** The relay on its way to place `k` of its path. */
  function Leg(path: seq<Node>, body: Body, k: nat): Runs.Msg
    requires 0 < k < |path|
  {
    Runs.Msg(path[k - 1], path[k], Relay(path, k, body, path[0], RelaySig(path[0], path, body)))
  }

  lemma {:induction false} GoOn(t: Runs.Topology, steps: seq<Step>, s: Step) returns (more: seq<Step>)
    requires IsRun(t, steps) && Enabled(RunFrom(t, steps), s)
    ensures more == steps + [s] && IsRun(t, more) && RunFrom(t, more) == After(t, RunFrom(t, steps), s)
  {
    more := steps + [s];
    assert more[..|more| - 1] == steps;
  }

  /** A relay that a place of its path is handed goes on to the next, or is delivered at the last. */
  lemma {:induction false} LegDone(t: Runs.Topology, net: Net, path: seq<Node>, body: Body, k: nat)
    requires Linked(t, path) && 0 < k < |path|
    ensures var net' := After(t, net, Follow(Runs.Deliver(Leg(path, body, k))));
      if k + 1 < |path| then Leg(path, body, k + 1) in net'.base.soup
      else (path[k], Delivery(body, path, path[k - 1])) in net'.delivered
  {
    if k + 1 < |path| {
      assert path[k + 1] in Runs.LinksOf(t, path[k]);
      var next := Relay(path, k + 1, body, path[0], RelaySig(path[0], path, body));
      assert Sent(path[k + 1], next) in SendTo(path[k + 1], next).sent;
    }
  }

  lemma {:induction false} LegsDone(t: Runs.Topology, path: seq<Node>, body: Body, k: nat,
        steps: seq<Step>) returns (more: seq<Step>)
    requires Linked(t, path) && 0 < k < |path| && IsRun(t, steps)
    requires Leg(path, body, k) in RunFrom(t, steps).base.soup
    ensures IsRun(t, more) && steps <= more
    ensures (path[|path| - 1], Delivery(body, path, path[|path| - 2])) in RunFrom(t, more).delivered
    decreases |path| - k
  {
    more := GoOn(t, steps, Follow(Runs.Deliver(Leg(path, body, k))));
    LegDone(t, RunFrom(t, steps), path, body, k);
    if k + 1 < |path| {
      more := LegsDone(t, path, body, k + 1, more);
    }
  }

  /** Along any path of links, what its first node relays can be delivered at its last. */
  lemma {:induction false} EveryRelayCanArrive(t: Runs.Topology, path: seq<Node>, body: Body) returns (steps: seq<Step>)
    requires Linked(t, path) && |path| >= 2
    ensures IsRun(t, steps) && [IssueRelay(path[0], path, body)] <= steps
    ensures (path[|path| - 1], Delivery(body, path, path[|path| - 2])) in RunFrom(t, steps).delivered
  {
    var s := IssueRelay(path[0], path, body);
    steps := GoOn(t, [], s);
    assert path[0 + 1] in Runs.LinksOf(t, path[0]);
    assert RelayOut(path[0], path, body).value in [RelayOut(path[0], path, body).value];
    assert Leg(path, body, 1) in FirstHop(t, path[0], RelayOut(path[0], path, body));
    steps := LegsDone(t, path, body, 1, steps);
  }
}
