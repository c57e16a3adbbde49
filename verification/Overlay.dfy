/** `OverlayRouter` of `Overlay.kt`: route requests, route responses and relays, one envelope at a time. */
module Overlay {
  import opened Seqs

  type Node = nat

  type ReqId = nat

  type Body = nat

  const MAX_HOPS := 6

  /** Signatures as symbols: only their signer can make them, and they verify only for what was signed. */
  datatype Signature = RouteSig(signer: Node, reqId: ReqId, path: seq<Node>)
    | RelaySig(signer: Node, path: seq<Node>, body: Body)

  /** `key` stands for the public key a message carries, named by the node it hashes to. */
  datatype Payload =
    | RouteReq(reqId: ReqId, target: Node, ttl: int, path: seq<Node>)
    | RouteResp(reqId: ReqId, path: seq<Node>, key: Node, sig: Signature)
    | Relay(path: seq<Node>, idx: int, body: Body, key: Node, sig: Signature)

  datatype Sent = Sent(to: Node, payload: Payload)

  datatype Delivery = Delivery(body: Body, path: seq<Node>, from: Node)

  /** What a router remembers: the requests it has handled, and the routes it waits for with their targets. */
  datatype Memory = Memory(seen: set<ReqId>, pending: map<ReqId, Node>)

  /** What handling an envelope does besides changing the memory. */
  datatype Effects = Effects(sent: seq<Sent>, resolved: Option<seq<Node>>, delivered: Option<Delivery>)

  const QUIET := Effects([], None, None)

  function SendTo(node: Node, p: Payload): Effects {
    Effects([Sent(node, p)], None, None)
  }

  // ---------------------------------------------------------------- specification

  /** The neighbours a request goes on to: not back to its sender, not to a node it has passed. */
  function Onward(links: seq<Node>, sender: Node, p: Payload, hops: seq<Node>): seq<Sent> {
    if links == [] then []
    else
      var last := links[|links| - 1];
      Onward(links[..|links| - 1], sender, p, hops)
      + (if last != sender && last !in hops then [Sent(last, p)] else [])
  }

  function HandleReq(self: Node, links: seq<Node>, m: Memory, sender: Node, p: Payload): (Memory, Effects)
    requires p.RouteReq?
  {
    if p.path == [] || p.ttl <= 0 then (m, QUIET)
    else if p.reqId in m.seen || self in p.path || |p.path| > MAX_HOPS then (m, QUIET)
    else
      var m' := m.(seen := m.seen + {p.reqId});
      var nextPath := p.path + [self];
      if p.target == self then
        (m', SendTo(p.path[|p.path| - 1], RouteResp(p.reqId, nextPath, self, RouteSig(self, p.reqId, nextPath))))
      else
        (m', Effects(Onward(links, sender, RouteReq(p.reqId, p.target, p.ttl - 1, nextPath), p.path), None, None))
  }

  function HandleResp(self: Node, m: Memory, p: Payload): (Memory, Effects)
    requires p.RouteResp?
  {
    if |p.path| < 2 || p.key != p.path[|p.path| - 1] || p.sig != RouteSig(p.key, p.reqId, p.path) then (m, QUIET)
    else if p.path[0] == self then
      if p.reqId in m.pending && m.pending[p.reqId] == p.path[|p.path| - 1]
      then (m.(pending := m.pending - {p.reqId}), Effects([], Some(p.path), None))
      else (m, QUIET)
    else
      var index := IndexOf(p.path, self);
      if index <= 0 then (m, QUIET) else (m, SendTo(p.path[index - 1], p))
  }

  function HandleRelay(self: Node, m: Memory, sender: Node, p: Payload): (Memory, Effects)
    requires p.Relay?
  {
    if p.path == [] || !(0 <= p.idx < |p.path|) || p.path[p.idx] != self then (m, QUIET)
    else if p.key != p.path[0] || p.sig != RelaySig(p.key, p.path, p.body) then (m, QUIET)
    else if p.idx == |p.path| - 1 then (m, Effects([], None, Some(Delivery(p.body, p.path, sender))))
    else (m, SendTo(p.path[p.idx + 1], p.(idx := p.idx + 1)))
  }

  function Handle(self: Node, links: seq<Node>, m: Memory, sender: Node, p: Payload): (Memory, Effects) {
    match p
    case RouteReq(_, _, _, _) => HandleReq(self, links, m, sender, p)
    case RouteResp(_, _, _, _) => HandleResp(self, m, p)
    case Relay(_, _, _, _, _) => HandleRelay(self, m, sender, p)
  }

  // ---------------------------------------------------------------- the router

  class OverlayRouter {
    const self: Node
    const ttl: int
    const links: seq<Node>
    var seenReqs: set<ReqId>
    var pendingRoutes: map<ReqId, Node>

    constructor (self: Node, links: seq<Node>, ttl: int)
      ensures this.self == self && this.links == links && this.ttl == ttl && View() == Memory({}, map[])
    {
      this.self, this.links, this.ttl := self, links, ttl;
      seenReqs, pendingRoutes := {}, map[];
    }

    function View(): Memory
      reads this
    {
      Memory(seenReqs, pendingRoutes)
    }

    method Forward(sender: Node, p: Payload, hops: seq<Node>) returns (sent: seq<Sent>)
      ensures sent == Onward(links, sender, p, hops)
    {
      sent := [];
      for i := 0 to |links|
        invariant sent == Onward(links[..i], sender, p, hops)
      {
        assert links[..i + 1][..i] == links[..i];
        if links[i] != sender && links[i] !in hops {
          sent := sent + [Sent(links[i], p)];
        }
      }
      assert links[..|links|] == links;
    }

    /** `handleOverlay`. */
    method HandleOverlay(sender: Node, p: Payload) returns (e: Effects)
      modifies this
      ensures (View(), e) == Handle(self, links, old(View()), sender, p)
    {
      e := QUIET;
      match p
      case RouteReq(reqId, target, remainingTtl, hops) =>
        if hops == [] || remainingTtl <= 0 {
          return;
        }
        if reqId in seenReqs || self in hops || |hops| > MAX_HOPS {
          return;
        }
        seenReqs := seenReqs + {reqId};
        var nextPath := hops + [self];
        if target == self {
          var prevHop := hops[|hops| - 1];
          e := SendTo(prevHop, RouteResp(reqId, nextPath, self, RouteSig(self, reqId, nextPath)));
          return;
        }
        var sent := Forward(sender, RouteReq(reqId, target, remainingTtl - 1, nextPath), hops);
        e := Effects(sent, None, None);
      case RouteResp(reqId, path, key, sig) =>
        if |path| < 2 || key != path[|path| - 1] || sig != RouteSig(key, reqId, path) {
          return;
        }
        if path[0] == self {
          if reqId !in pendingRoutes || path[|path| - 1] != pendingRoutes[reqId] {
            return;
          }
          pendingRoutes := pendingRoutes - {reqId};
          e := Effects([], Some(path), None);
          return;
        }
        var index := IndexOf(path, self);
        if index > 0 {
          e := SendTo(path[index - 1], p);
        }
      case Relay(path, idx, body, key, sig) =>
        if path == [] || !(0 <= idx < |path|) || path[idx] != self || key != path[0]
           || sig != RelaySig(key, path, body) {
          return;
        }
        if idx == |path| - 1 {
          e := Effects([], None, Some(Delivery(body, path, sender)));
          return;
        }
        e := SendTo(path[idx + 1], p.(idx := idx + 1));
    }

    /** `discoverRoute`, up to the point where it waits. */
    method DiscoverRoute(reqId: ReqId, target: Node, maxTtl: int) returns (sent: seq<Sent>)
      modifies this
      ensures View() == old(View()).(pending := old(View()).pending[reqId := target])
      ensures sent == Opening(links, self, reqId, target, maxTtl)
    {
      pendingRoutes := pendingRoutes[reqId := target];
      sent := [];
      for i := 0 to |links|
        invariant sent == Opening(links[..i], self, reqId, target, maxTtl)
        invariant pendingRoutes == old(pendingRoutes)[reqId := target] && seenReqs == old(seenReqs)
      {
        assert links[..i + 1][..i] == links[..i];
        sent := sent + [Sent(links[i], RouteReq(reqId, target, maxTtl, [self]))];
      }
      assert links[..|links|] == links;
    }
  }

  /** `relay`: the first hop of a relayed body, or nothing when the path does not start here. */
  function RelayOut(self: Node, path: seq<Node>, body: Body): Option<Sent> {
    if |path| < 2 || path[0] != self then None
    else Some(Sent(path[1], Relay(path, 1, body, self, RelaySig(self, path, body))))
  }

  /** Where a relayed envelope ends up when each node it is sent to handles it. */
  function Carry(from: Node, out: Sent): Option<Delivery>
    decreases if out.payload.Relay? then |out.payload.path| - out.payload.idx else 0
  {
    if !out.payload.Relay? then None
    else
      var (_, e) := HandleRelay(out.to, Memory({}, map[]), from, out.payload);
      if e.delivered.Some? then e.delivered
      else if e.sent == [] then None
      else Carry(out.to, e.sent[0])
  }

  lemma {:induction false} RelayTravels(path: seq<Node>, body: Body, idx: nat)
    requires 0 < idx < |path|
    ensures Carry(path[idx - 1], Sent(path[idx], Relay(path, idx, body, path[0], RelaySig(path[0], path, body))))
      == Some(Delivery(body, path, path[|path| - 2]))
    decreases |path| - idx
  {
    if idx < |path| - 1 {
      RelayTravels(path, body, idx + 1);
    }
  }

  /** A relayed body visits the path in order and is delivered unchanged at its end. */
  lemma {:induction false} RelayArrives(self: Node, path: seq<Node>, body: Body)
    requires RelayOut(self, path, body).Some?
    ensures Carry(self, RelayOut(self, path, body).value) == Some(Delivery(body, path, path[|path| - 2]))
  {
    RelayTravels(path, body, 1);
  }

  function Opening(links: seq<Node>, self: Node, reqId: ReqId, target: Node, ttl: int): seq<Sent> {
    if links == [] then []
    else
      Opening(links[..|links| - 1], self, reqId, target, ttl)
      + [Sent(links[|links| - 1], RouteReq(reqId, target, ttl, [self]))]
  }

  lemma {:induction false} OnwardMembers(links: seq<Node>, sender: Node, p: Payload, hops: seq<Node>)
    ensures forall x ::
      x in Onward(links, sender, p, hops) <==> x.payload == p && x.to in links && x.to != sender && x.to !in hops
  {
    if links != [] {
      OnwardMembers(links[..|links| - 1], sender, p, hops);
      assert links == links[..|links| - 1] + [links[|links| - 1]];
    }
  }

  lemma {:induction false} OpeningMembers(links: seq<Node>, self: Node, reqId: ReqId, target: Node, ttl: int)
    ensures var p := RouteReq(reqId, target, ttl, [self]);
      forall x :: x in Opening(links, self, reqId, target, ttl) <==> x.payload == p && x.to in links
  {
    if links != [] {
      OpeningMembers(links[..|links| - 1], self, reqId, target, ttl);
      assert links == links[..|links| - 1] + [links[|links| - 1]];
    }
  }
}
