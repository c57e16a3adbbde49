/** Discoveries in which no message is lost: when one must succeed, and how one can fail. */
module OverlayDelivery {
  import opened Seqs
  import opened Overlay
  import opened OverlayRuns

  /** The messages a run has delivered. */
  function Arrived(steps: seq<Step>): set<Msg> {
    if steps == [] then {}
    else
      var last := steps[|steps| - 1];
      Arrived(steps[..|steps| - 1]) + (if last.Deliver? then {last.msg} else {})
  }

  /** Every message ever sent has been delivered, and the origin has not given up. */
  ghost predicate Lossless(t: Topology, steps: seq<Step>, id: ReqId, r: Request) {
    RunFrom(t, START, steps).soup <= Arrived(steps) && TimeOut(r.origin, id) !in steps
  }

  /** No simple path from the origin is too long for the ttl or the hop limit. */
  ghost predicate Roomy(t: Topology, r: Request) {
    forall path | path != [] && path[0] == r.origin && SimplePath(t, path) ::
      |path| <= r.ttl + 1 && |path| <= 7
  }

  // ---------------------------------------------------------------- how far a request has spread

  predicate IsReq(msg: Msg, id: ReqId) {
    msg.payload.RouteReq? && msg.payload.reqId == id
  }

  predicate IsResp(msg: Msg, id: ReqId) {
    msg.payload.RouteResp? && msg.payload.reqId == id
  }

  predicate Reached(net: Net, id: ReqId, r: Request, n: Node) {
    n == r.origin || id in MemoryOf(net, n).seen
  }

  ghost predicate Told(net: Net, id: ReqId, r: Request, n: Node) {
    Reached(net, id, r, n) || exists msg :: msg in net.soup && msg.to == n && IsReq(msg, id)
  }

  ghost predicate NeighboursTold(t: Topology, net: Net, id: ReqId, r: Request) {
    forall m, n | Reached(net, id, r, m) && m != r.target && n in LinksOf(t, m) :: Told(net, id, r, n)
  }

  ghost predicate PathsReached(net: Net, id: ReqId, r: Request) {
    forall msg, n | msg in net.soup && IsReq(msg, id) && n in msg.payload.path :: Reached(net, id, r, n)
  }

  ghost predicate ArrivedReached(net: Net, arrived: set<Msg>, id: ReqId, r: Request) {
    forall msg | msg in net.soup && msg in arrived && IsReq(msg, id) :: Reached(net, id, r, msg.to)
  }

  ghost predicate Answered(net: Net, id: ReqId) {
    exists msg :: msg in net.soup && IsResp(msg, id)
  }

  ghost predicate Done(net: Net, id: ReqId) {
    exists path :: (id, path) in net.accepted
  }

  /** The response has gone on to the place before. */
  ghost predicate SentBack(net: Net, id: ReqId, msg: Msg)
    requires IsResp(msg, id)
  {
    var path, k := msg.payload.path, IndexOf(msg.payload.path, msg.to);
    k > 0 && exists next :: next in net.soup && IsResp(next, id) && next.payload.path == path && next.to == path[k - 1]
  }

  ghost predicate ResponseMoves(net: Net, id: ReqId, r: Request, msg: Msg)
    requires IsResp(msg, id)
  {
    if msg.to == r.origin then Done(net, id) else SentBack(net, id, msg)
  }

  ghost predicate ResponsesMove(net: Net, arrived: set<Msg>, id: ReqId, r: Request) {
    forall msg | msg in net.soup && msg in arrived && IsResp(msg, id) :: ResponseMoves(net, id, r, msg)
  }

  ghost predicate StillWaiting(net: Net, id: ReqId, r: Request) {
    Done(net, id) || (id in MemoryOf(net, r.origin).pending && MemoryOf(net, r.origin).pending[id] == r.target)
  }

  ghost predicate Flood(t: Topology, net: Net, arrived: set<Msg>, id: ReqId, r: Request) {
    && id in net.requests && net.requests[id] == r
    && NeighboursTold(t, net, id, r) && PathsReached(net, id, r) && ArrivedReached(net, arrived, id, r)
    && (id in MemoryOf(net, r.target).seen ==> Answered(net, id))
    && ResponsesMove(net, arrived, id, r) && StillWaiting(net, id, r)
  }

  // ---------------------------------------------------------------- what a step must do to keep it

  ghost predicate Grows(net: Net, net': Net, id: ReqId, r: Request) {
    && net.soup <= net'.soup && net.accepted <= net'.accepted
    && id in net'.requests && net'.requests[id] == r
    && forall n | Reached(net, id, r, n) :: Reached(net', id, r, n)
  }

  ghost predicate NewlyReachedTell(t: Topology, net: Net, net': Net, id: ReqId, r: Request) {
    forall m, n | Reached(net', id, r, m) && !Reached(net, id, r, m) && m != r.target && n in LinksOf(t, m) ::
      Told(net', id, r, n)
  }

  ghost predicate NewPathsReached(net: Net, net': Net, id: ReqId, r: Request) {
    forall msg, n | msg in net'.soup && msg !in net.soup && IsReq(msg, id) && n in msg.payload.path ::
      Reached(net', id, r, n)
  }

  /** Whatever has arrived had arrived before, or has had its effect. */
  ghost predicate ArrivalsCount(net: Net, net': Net, arrived: set<Msg>, arrived': set<Msg>, id: ReqId, r: Request) {
    forall msg | msg in net'.soup && msg in arrived' && !(msg in net.soup && msg in arrived) ::
      && (IsReq(msg, id) ==> Reached(net', id, r, msg.to))
      && (IsResp(msg, id) ==> ResponseMoves(net', id, r, msg))
  }

  lemma {:induction false} ToldStays(net: Net, net': Net, id: ReqId, r: Request, n: Node)
    requires Grows(net, net', id, r) && Told(net, id, r, n)
    ensures Told(net', id, r, n)
  {
  }

  lemma {:induction false} ResponseMovesOn(net: Net, net': Net, id: ReqId, r: Request, msg: Msg)
    requires Grows(net, net', id, r) && IsResp(msg, id) && ResponseMoves(net, id, r, msg)
    ensures ResponseMoves(net', id, r, msg)
  {
  }

  lemma {:induction false} FloodGoesOn(t: Topology, net: Net, net': Net, arrived: set<Msg>, arrived': set<Msg>,
        id: ReqId, r: Request)
    requires Flood(t, net, arrived, id, r) && Grows(net, net', id, r)
    requires NewlyReachedTell(t, net, net', id, r) && NewPathsReached(net, net', id, r)
    requires ArrivalsCount(net, net', arrived, arrived', id, r)
    requires id in MemoryOf(net', r.target).seen ==> id in MemoryOf(net, r.target).seen || Answered(net', id)
    requires StillWaiting(net', id, r)
    ensures Flood(t, net', arrived', id, r)
  {
    forall m, n | Reached(net', id, r, m) && m != r.target && n in LinksOf(t, m) ensures Told(net', id, r, n) {
      if Reached(net, id, r, m) {
        ToldStays(net, net', id, r, n);
      }
    }
    forall msg, n | msg in net'.soup && IsReq(msg, id) && n in msg.payload.path ensures Reached(net', id, r, n) {
      assert msg in net.soup ==> Reached(net, id, r, n);
    }
    forall msg | msg in net'.soup && msg in arrived' && IsReq(msg, id) ensures Reached(net', id, r, msg.to) {
      assert msg in net.soup && msg in arrived ==> Reached(net, id, r, msg.to);
    }
    forall msg | msg in net'.soup && msg in arrived' && IsResp(msg, id) ensures ResponseMoves(net', id, r, msg) {
      if msg in net.soup && msg in arrived {
        ResponseMovesOn(net, net', id, r, msg);
      }
    }
  }

  // ---------------------------------------------------------------- every step does

  lemma {:induction false} DeliverGrows(t: Topology, net: Net, msg: Msg, n: Node)
    ensures var net' := DeliverStep(t, net, msg);
      && net.soup <= net'.soup && net.accepted <= net'.accepted && net'.requests == net.requests
      && MemoryOf(net, n).seen <= MemoryOf(net', n).seen
  {
  }

  /** Where a request arrives there is room for one more node. */
  lemma {:induction false} RoomLeft(t: Topology, net: Net, id: ReqId, r: Request, msg: Msg)
    requires GoodMsg(t, net, msg) && IsReq(msg, id) && net.requests[id] == r && Roomy(t, r)
    requires msg.to !in msg.payload.path
    ensures msg.payload.path != [] && msg.payload.ttl > 0 && |msg.payload.path| <= 6
  {
    var path := msg.payload.path;
    ExtendPath(t, path, msg.to);
    assert (path + [msg.to])[0] == r.origin;
  }

  /** A request that arrives at a node it has reached changes nothing. */
  lemma {:induction false} OldNews(t: Topology, net: Net, arrived: set<Msg>, id: ReqId, r: Request, msg: Msg)
    requires Inv(t, net) && Flood(t, net, arrived, id, r) && Roomy(t, r)
    requires msg in net.soup && IsReq(msg, id) && Reached(net, id, r, msg.to)
    ensures Flood(t, DeliverStep(t, net, msg), arrived + {msg}, id, r)
  {
    var net' := DeliverStep(t, net, msg);
    assert GoodMsg(t, net, msg);
    assert Handle(msg.to, LinksOf(t, msg.to), MemoryOf(net, msg.to), msg.from, msg.payload)
      == (MemoryOf(net, msg.to), QUIET);
    assert Posted(t, msg.to, []) == {};
    forall n ensures MemoryOf(net', n) == MemoryOf(net, n) {
    }
    assert net'.soup == net.soup && net'.accepted == net.accepted && net'.requests == net.requests;
    FloodGoesOn(t, net, net', arrived, arrived + {msg}, id, r);
  }

  /** What a node does with a request that had not reached it. */
  lemma {:induction false} FirstNews(t: Topology, net: Net, id: ReqId, r: Request, msg: Msg)
    requires Inv(t, net) && PathsReached(net, id, r) && Roomy(t, r) && id in net.requests && net.requests[id] == r
    requires msg in net.soup && IsReq(msg, id) && !Reached(net, id, r, msg.to)
    ensures var p, self := msg.payload, msg.to;
      var nextPath := p.path + [self];
      && p.path != [] && p.path[|p.path| - 1] == msg.from && p.target == r.target
      && Handle(self, LinksOf(t, self), MemoryOf(net, self), msg.from, p)
        == (MemoryOf(net, self).(seen := MemoryOf(net, self).seen + {id}),
            if r.target == self then SendTo(msg.from, RouteResp(id, nextPath, self, RouteSig(self, id, nextPath)))
            else Effects(Onward(LinksOf(t, self), msg.from, RouteReq(id, r.target, p.ttl - 1, nextPath), p.path),
              None, None))
  {
    assert GoodMsg(t, net, msg);
    assert forall n | n in msg.payload.path :: Reached(net, id, r, n);
    RoomLeft(t, net, id, r, msg);
  }

  /** After its first news everyone the node is linked to has been told. */
  lemma {:induction false} Forwarded(t: Topology, net: Net, id: ReqId, r: Request, msg: Msg, n: Node)
    requires Inv(t, net) && PathsReached(net, id, r) && Roomy(t, r) && id in net.requests && net.requests[id] == r
    requires msg in net.soup && IsReq(msg, id) && !Reached(net, id, r, msg.to)
    requires msg.to != r.target && n in LinksOf(t, msg.to)
    ensures Told(DeliverStep(t, net, msg), id, r, n)
  {
    var p, self, net' := msg.payload, msg.to, DeliverStep(t, net, msg);
    FirstNews(t, net, id, r, msg);
    var next := RouteReq(id, r.target, p.ttl - 1, p.path + [self]);
    OnwardMembers(LinksOf(t, self), msg.from, next, p.path);
    if n == msg.from || n in p.path {
      assert Reached(net, id, r, n);
      DeliverGrows(t, net, msg, n);
    } else {
      assert Sent(n, next) in Onward(LinksOf(t, self), msg.from, next, p.path);
      assert Msg(self, n, next) in net'.soup;
    }
  }

  lemma {:induction false} AnswerSent(t: Topology, net: Net, id: ReqId, r: Request, msg: Msg)
    requires Symmetric(t)
    requires Inv(t, net) && PathsReached(net, id, r) && Roomy(t, r) && id in net.requests && net.requests[id] == r
    requires msg in net.soup && IsReq(msg, id) && !Reached(net, id, r, msg.to) && msg.to == r.target
    ensures Answered(DeliverStep(t, net, msg), id)
  {
    var self, net' := msg.to, DeliverStep(t, net, msg);
    var nextPath := msg.payload.path + [self];
    var answer := RouteResp(id, nextPath, self, RouteSig(self, id, nextPath));
    assert GoodMsg(t, net, msg);
    FirstNews(t, net, id, r, msg);
    assert Sent(msg.from, answer) in SendTo(msg.from, answer).sent;
    assert Msg(self, msg.from, answer) in net'.soup;
  }

  /** Who is reached by a first delivery: those reached before and the receiver. */
  lemma {:induction false} FirstReached(t: Topology, net: Net, id: ReqId, r: Request, msg: Msg, n: Node)
    requires Inv(t, net) && PathsReached(net, id, r) && Roomy(t, r) && id in net.requests && net.requests[id] == r
    requires msg in net.soup && IsReq(msg, id) && !Reached(net, id, r, msg.to)
    ensures Reached(DeliverStep(t, net, msg), id, r, n) <==> n == msg.to || Reached(net, id, r, n)
    ensures MemoryOf(DeliverStep(t, net, msg), n).pending == MemoryOf(net, n).pending
  {
    FirstNews(t, net, id, r, msg);
  }

  /** The new messages of a first delivery: requests that went through the receiver, or its answer. */
  lemma {:induction false} FirstSent(t: Topology, net: Net, id: ReqId, r: Request, msg: Msg, x: Msg)
    requires Inv(t, net) && PathsReached(net, id, r) && Roomy(t, r) && id in net.requests && net.requests[id] == r
    requires msg in net.soup && IsReq(msg, id) && !Reached(net, id, r, msg.to)
    requires x in DeliverStep(t, net, msg).soup && x !in net.soup && IsReq(x, id)
    ensures x.payload.path == msg.payload.path + [msg.to]
  {
    FirstNews(t, net, id, r, msg);
    OnwardMembers(LinksOf(t, msg.to), msg.from,
      RouteReq(id, r.target, msg.payload.ttl - 1, msg.payload.path + [msg.to]), msg.payload.path);
  }

  lemma {:induction false} FirstNewsFlood(t: Topology, net: Net, arrived: set<Msg>, id: ReqId, r: Request, msg: Msg)
    requires Symmetric(t) && Inv(t, net) && Flood(t, net, arrived, id, r) && Roomy(t, r) && arrived <= net.soup
    requires msg in net.soup && IsReq(msg, id) && !Reached(net, id, r, msg.to)
    ensures Flood(t, DeliverStep(t, net, msg), arrived + {msg}, id, r)
  {
    var net' := DeliverStep(t, net, msg);
    forall n ensures Reached(net', id, r, n) <==> n == msg.to || Reached(net, id, r, n) {
      FirstReached(t, net, id, r, msg, n);
    }
    FirstReached(t, net, id, r, msg, r.origin);
    DeliverGrows(t, net, msg, r.origin);
    forall m, n | Reached(net', id, r, m) && !Reached(net, id, r, m) && m != r.target && n in LinksOf(t, m)
      ensures Told(net', id, r, n)
    {
      Forwarded(t, net, id, r, msg, n);
    }
    forall x, n | x in net'.soup && x !in net.soup && IsReq(x, id) && n in x.payload.path
      ensures Reached(net', id, r, n)
    {
      FirstSent(t, net, id, r, msg, x);
      assert n != msg.to ==> n in msg.payload.path;
    }
    if msg.to == r.target {
      AnswerSent(t, net, id, r, msg);
    } else {
      FirstReached(t, net, id, r, msg, r.target);
    }
    FloodGoesOn(t, net, net', arrived, arrived + {msg}, id, r);
  }

  // ---------------------------------------------------------------- responses and the rest

  lemma {:induction false} ResponseFlood(t: Topology, net: Net, arrived: set<Msg>, id: ReqId, r: Request, msg: Msg)
    requires Symmetric(t) && Inv(t, net) && Flood(t, net, arrived, id, r) && arrived <= net.soup
    requires msg in net.soup && IsResp(msg, id)
    ensures Flood(t, DeliverStep(t, net, msg), arrived + {msg}, id, r)
  {
    var net' := DeliverStep(t, net, msg);
    forall n ensures MemoryOf(net', n).seen == MemoryOf(net, n).seen {
    }
    ResponseHandled(t, net, id, r, msg);
    forall x | x in net'.soup && x !in net.soup ensures !IsReq(x, id) {
    }
    FloodGoesOn(t, net, net', arrived, arrived + {msg}, id, r);
  }

  /** The origin accepts or has accepted already; anyone else passes the response on. */
  lemma {:induction false} ResponseHandled(t: Topology, net: Net, id: ReqId, r: Request, msg: Msg)
    requires Symmetric(t) && Inv(t, net) && id in net.requests && net.requests[id] == r && StillWaiting(net, id, r)
    requires msg in net.soup && IsResp(msg, id)
    ensures ResponseMoves(DeliverStep(t, net, msg), id, r, msg) && StillWaiting(DeliverStep(t, net, msg), id, r)
  {
    var net', p := DeliverStep(t, net, msg), msg.payload;
    assert GoodMsg(t, net, msg);
    StepBack(t, p.path, msg.to);
    var k := IndexOf(p.path, msg.to);
    if msg.to == r.origin {
      assert (id, p.path) in net'.accepted || Done(net, id);
    } else {
      assert p.path[k - 1 + 1] in LinksOf(t, p.path[k - 1]);
      assert Sent(p.path[k - 1], p) in SendTo(p.path[k - 1], p).sent;
      assert Msg(msg.to, p.path[k - 1], p) in net'.soup;
    }
  }

  /** Messages of other requests leave this one alone. */
  lemma {:induction false} OthersFlood(t: Topology, net: Net, arrived: set<Msg>, id: ReqId, r: Request, msg: Msg)
    requires Inv(t, net) && Flood(t, net, arrived, id, r) && arrived <= net.soup
    requires msg in net.soup && !IsReq(msg, id) && !IsResp(msg, id)
    ensures Flood(t, DeliverStep(t, net, msg), arrived + {msg}, id, r)
  {
    var net' := DeliverStep(t, net, msg);
    assert GoodMsg(t, net, msg);
    OthersStep(t, net, id, msg);
    FloodGoesOn(t, net, net', arrived, arrived + {msg}, id, r);
  }

  lemma {:induction false} OthersStep(t: Topology, net: Net, id: ReqId, msg: Msg)
    requires GoodMsg(t, net, msg) && !IsReq(msg, id) && !IsResp(msg, id)
    ensures var net' := DeliverStep(t, net, msg);
      && (forall n :: id in MemoryOf(net', n).seen <==> id in MemoryOf(net, n).seen)
      && (forall n :: id in MemoryOf(net', n).pending <==> id in MemoryOf(net, n).pending)
      && (forall n | id in MemoryOf(net, n).pending :: MemoryOf(net', n).pending[id] == MemoryOf(net, n).pending[id])
      && (forall x | x in net'.soup && x !in net.soup :: !IsReq(x, id) && !IsResp(x, id))
      && net.soup <= net'.soup && net.accepted <= net'.accepted && net'.requests == net.requests
  {
    if msg.payload.RouteReq? {
      OnwardMembers(LinksOf(t, msg.to), msg.from, RouteReq(msg.payload.reqId, msg.payload.target,
        msg.payload.ttl - 1, msg.payload.path + [msg.to]), msg.payload.path);
    }
  }

  /** A request nobody has made yet is unknown everywhere. */
  ghost predicate Unknown(net: Net, id: ReqId) {
    id !in net.requests && forall n :: id !in MemoryOf(net, n).seen
  }

  lemma {:induction false} DiscoveryFloods(t: Topology, net: Net, arrived: set<Msg>, id: ReqId, r: Request)
    requires Inv(t, net) && Unknown(net, id) && arrived <= net.soup && r.origin != r.target
    ensures Flood(t, DiscoverStep(t, net, r.origin, id, r.target, r.ttl), arrived, id, r)
  {
    var net' := DiscoverStep(t, net, r.origin, id, r.target, r.ttl);
    var p := RouteReq(id, r.target, r.ttl, [r.origin]);
    OpeningMembers(LinksOf(t, r.origin), r.origin, id, r.target, r.ttl);
    forall n ensures MemoryOf(net', n).seen == MemoryOf(net, n).seen {
    }
    forall x | x in net.soup ensures !IsReq(x, id) && !IsResp(x, id) {
      assert GoodMsg(t, net, x);
    }
    forall n | n in LinksOf(t, r.origin) ensures Told(net', id, r, n) {
      assert Sent(n, p) in Opening(LinksOf(t, r.origin), r.origin, id, r.target, r.ttl);
      assert Msg(r.origin, n, p) in net'.soup;
    }
    forall x, n | x in net'.soup && IsReq(x, id) && n in x.payload.path ensures Reached(net', id, r, n) {
      assert x.payload.path == [r.origin];
    }
  }

  /** What changes neither what is known of the request nor its messages keeps its spread. */
  ghost predicate LeavesAlone(net: Net, net': Net, id: ReqId) {
    && (forall n :: id in MemoryOf(net', n).seen <==> id in MemoryOf(net, n).seen)
    && (forall n | id in MemoryOf(net, n).pending ::
        id in MemoryOf(net', n).pending && MemoryOf(net', n).pending[id] == MemoryOf(net, n).pending[id])
    && (forall x | x in net'.soup && x !in net.soup :: !IsReq(x, id) && !IsResp(x, id))
    && net.soup <= net'.soup && net.accepted <= net'.accepted
  }

  lemma {:induction false} LeftAlone(t: Topology, net: Net, net': Net, arrived: set<Msg>, id: ReqId, r: Request)
    requires Flood(t, net, arrived, id, r) && arrived <= net.soup && LeavesAlone(net, net', id)
    requires id in net'.requests && net'.requests[id] == r
    ensures Flood(t, net', arrived, id, r)
  {
    FloodGoesOn(t, net, net', arrived, arrived, id, r);
  }

  lemma {:induction false} DiscoverLeaves(t: Topology, net: Net, id: ReqId, s: Step)
    requires s.Discover? && s.reqId != id
    ensures LeavesAlone(net, After(t, net, s), id)
  {
    OpeningMembers(LinksOf(t, s.origin), s.origin, s.reqId, s.target, s.ttl);
  }

  lemma {:induction false} FloodStep(t: Topology, net: Net, arrived: set<Msg>, id: ReqId, r: Request, s: Step)
    requires Symmetric(t) && Inv(t, net) && Flood(t, net, arrived, id, r) && Roomy(t, r) && arrived <= net.soup
    requires Enabled(net, s) && (s.TimeOut? && s.reqId == id ==> s.node != r.origin)
    ensures Flood(t, After(t, net, s), arrived + (if s.Deliver? then {s.msg} else {}), id, r)
  {
    match s
    case Discover(_, _, _, _) =>
      DiscoverLeaves(t, net, id, s);
      LeftAlone(t, net, After(t, net, s), arrived, id, r);
      assert arrived + {} == arrived;
    case Deliver(msg) =>
      if IsReq(msg, id) && Reached(net, id, r, msg.to) {
        OldNews(t, net, arrived, id, r, msg);
      } else if IsReq(msg, id) {
        FirstNewsFlood(t, net, arrived, id, r, msg);
      } else if IsResp(msg, id) {
        ResponseFlood(t, net, arrived, id, r, msg);
      } else {
        OthersFlood(t, net, arrived, id, r, msg);
      }
    case TimeOut(_, _) =>
      FloodGoesOn(t, net, After(t, net, s), arrived, arrived, id, r);
      assert arrived + {} == arrived;
  }

  /** Until it is made, a request stays unknown. */
  lemma {:induction false} UnknownStep(t: Topology, net: Net, id: ReqId, s: Step)
    requires Inv(t, net) && Unknown(net, id) && Enabled(net, s) && (s.Discover? ==> s.reqId != id)
    ensures Unknown(After(t, net, s), id)
  {
    match s
    case Discover(_, _, _, _) => DiscoverLeaves(t, net, id, s);
    case Deliver(msg) =>
      assert GoodMsg(t, net, msg);
      OthersStep(t, net, id, msg);
    case TimeOut(_, _) =>
      forall n ensures MemoryOf(After(t, net, s), n).seen == MemoryOf(net, n).seen {
      }
  }

  lemma {:induction false} ArrivedSent(t: Topology, steps: seq<Step>)
    requires IsRun(t, START, steps)
    ensures Arrived(steps) <= RunFrom(t, START, steps).soup
  {
    if steps != [] {
      ArrivedSent(t, steps[..|steps| - 1]);
      SoupGrows(t, RunFrom(t, START, steps[..|steps| - 1]), steps[|steps| - 1]);
    }
  }

  lemma {:induction false} SoupGrows(t: Topology, net: Net, s: Step)
    ensures net.soup <= After(t, net, s).soup
  {
  }

  /** In every run in which the origin does not give up: the request is unknown, or has spread as described. */
  lemma {:induction false} RunsFlood(t: Topology, steps: seq<Step>, id: ReqId, r: Request)
    requires Symmetric(t) && Roomy(t, r) && r.origin != r.target && IsRun(t, START, steps)
    requires TimeOut(r.origin, id) !in steps
    requires id in RunFrom(t, START, steps).requests ==> RunFrom(t, START, steps).requests[id] == r
    ensures var net := RunFrom(t, START, steps);
      if id in net.requests then Flood(t, net, Arrived(steps), id, r) else Unknown(net, id)
  {
    if steps != [] {
      var init, s := steps[..|steps| - 1], steps[|steps| - 1];
      var net := RunFrom(t, START, init);
      assert forall x | x in init :: x in steps;
      assert s in steps;
      RunsFlood(t, init, id, r);
      RunsKeepInv(t, init);
      ArrivedSent(t, init);
      if id in net.requests {
        FloodStep(t, net, Arrived(init), id, r, s);
      } else if s.Discover? && s.reqId == id {
        DiscoveryFloods(t, net, Arrived(init), id, r);
      } else {
        UnknownStep(t, net, id, s);
      }
    }
  }

  // ---------------------------------------------------------------- when discovery must succeed

  /** Along links from the origin everyone up to the target is reached. */
  lemma {:induction false} PathFlooded(t: Topology, net: Net, arrived: set<Msg>, id: ReqId, r: Request,
        path: seq<Node>, i: nat)
    requires Flood(t, net, arrived, id, r) && net.soup <= arrived
    requires SimplePath(t, path) && i < |path| && path[0] == r.origin && path[|path| - 1] == r.target
    ensures Reached(net, id, r, path[i])
  {
    if i > 0 {
      PathFlooded(t, net, arrived, id, r, path, i - 1);
      assert path[i - 1 + 1] in LinksOf(t, path[i - 1]);
      assert path[i - 1] != path[|path| - 1];
      assert Told(net, id, r, path[i]);
    }
  }

  /** A response that has been sent ends with an accepted route. */
  lemma {:induction false} ResponseArrives(t: Topology, net: Net, arrived: set<Msg>, id: ReqId, r: Request, msg: Msg)
    requires Inv(t, net) && Flood(t, net, arrived, id, r) && net.soup <= arrived
    requires msg in net.soup && IsResp(msg, id)
    ensures Done(net, id)
    decreases IndexOf(msg.payload.path, msg.to)
  {
    assert GoodMsg(t, net, msg) && ResponseMoves(net, id, r, msg);
    if msg.to != r.origin {
      var path, k := msg.payload.path, IndexOf(msg.payload.path, msg.to);
      var next :| next in net.soup && IsResp(next, id) && next.payload.path == path && next.to == path[k - 1];
      OnlyPlace(path, k - 1);
      ResponseArrives(t, net, arrived, id, r, next);
    }
  }

  /** With links that work both ways and no simple path from the origin too long for the ttl or the hop limit: if the
      target can be reached at all, no message is lost and the origin does not give up, some route is accepted. */
  lemma {:induction false} LosslessFindsRoute(t: Topology, steps: seq<Step>, id: ReqId, r: Request, path: seq<Node>)
    requires Symmetric(t) && Roomy(t, r) && Route(t, r, path) && IsRun(t, START, steps)
    requires id in RunFrom(t, START, steps).requests && RunFrom(t, START, steps).requests[id] == r
    requires Lossless(t, steps, id, r)
    ensures exists found :: (id, found) in RunFrom(t, START, steps).accepted && Route(t, r, found)
  {
    var net := RunFrom(t, START, steps);
    assert path[0] != path[|path| - 1];
    RunsFlood(t, steps, id, r);
    RunsKeepInv(t, steps);
    PathFlooded(t, net, Arrived(steps), id, r, path, |path| - 1);
    var msg :| msg in net.soup && IsResp(msg, id);
    ResponseArrives(t, net, Arrived(steps), id, r, msg);
    var found :| (id, found) in net.accepted;
    assert TwoWayRoute(t, net.requests[id], found);
  }

  /** At most seven nodes and a ttl that lets a request visit them all leave room enough. */
  lemma {:induction false} SmallNetworksAreRoomy(t: Topology, r: Request, nodes: set<Node>)
    requires r.origin in nodes && forall m, n | m in nodes && n in LinksOf(t, m) :: n in nodes
    requires |nodes| <= 7 && |nodes| <= r.ttl + 1
    ensures Roomy(t, r)
  {
    forall path | path != [] && path[0] == r.origin && SimplePath(t, path)
      ensures |path| <= r.ttl + 1 && |path| <= 7
    {
      StaysInside(t, nodes, path, |path|);
      assert path[..|path|] == path;
      NoDupBound(path, nodes);
    }
  }

  lemma {:induction false} StaysInside(t: Topology, nodes: set<Node>, path: seq<Node>, k: nat)
    requires forall m, n | m in nodes && n in LinksOf(t, m) :: n in nodes
    requires SimplePath(t, path) && path != [] && path[0] in nodes && k <= |path|
    ensures Elems(path[..k]) <= nodes
  {
    if k > 0 {
      StaysInside(t, nodes, path, k - 1);
      assert path[..k] == path[..k - 1] + [path[k - 1]];
      if k > 1 {
        assert path[..k - 1][k - 2] in Elems(path[..k - 1]);
        assert path[k - 2 + 1] in LinksOf(t, path[k - 2]);
      }
    }
  }

  // ---------------------------------------------------------------- when it can fail

  /** Node 0 looks for node 3 behind node 1; node 2 joins 0 and 1 as well. */
  const SQUARE: Topology := map[0 := [1, 2], 1 := [0, 2, 3], 2 := [0, 1], 3 := [1]]

  const SEARCH := Request(0, 3, 2)

  const ToOne := Msg(0, 1, RouteReq(7, 3, 2, [0]))
  const ToTwo := Msg(0, 2, RouteReq(7, 3, 2, [0]))
  const Detour := Msg(2, 1, RouteReq(7, 3, 1, [0, 2]))
  const TooLate := Msg(1, 3, RouteReq(7, 3, 0, [0, 2, 1]))

  const WAITS := Memory({}, map[7 := 3])
  const PASSED := Memory({7}, map[])
  const OPENED := Net(map[0 := WAITS], {ToOne, ToTwo}, map[7 := SEARCH], [], {})
  const DETOURED := Net(map[0 := WAITS, 2 := PASSED], {ToOne, ToTwo, Detour}, map[7 := SEARCH], [(2, 7)], {})
  const STRANDED :=
    Net(map[0 := WAITS, 2 := PASSED, 1 := PASSED], {ToOne, ToTwo, Detour, TooLate}, map[7 := SEARCH],
      [(2, 7), (1, 7)], {})
  const ENDED := STRANDED.(memory := STRANDED.memory[3 := Memory({}, map[])])

  lemma {:induction false} OnwardNext(links: seq<Node>, n: Node, sender: Node, p: Payload, hops: seq<Node>)
    ensures Onward(links + [n], sender, p, hops)
      == Onward(links, sender, p, hops) + (if n != sender && n !in hops then [Sent(n, p)] else [])
  {
    assert (links + [n])[..|links|] == links;
  }

  lemma {:induction false} OnwardTwo(a: Node, b: Node, sender: Node, p: Payload, hops: seq<Node>)
    ensures Onward([a, b], sender, p, hops)
      == (if a != sender && a !in hops then [Sent(a, p)] else [])
        + (if b != sender && b !in hops then [Sent(b, p)] else [])
  {
    OnwardNext([], a, sender, p, hops);
    OnwardNext([a], b, sender, p, hops);
    assert [] + [a] == [a] && [a] + [b] == [a, b];
  }

  lemma {:induction false} SearchOpens()
    ensures After(SQUARE, START, Discover(0, 7, 3, 2)) == OPENED
  {
    OpeningMembers([1, 2], 0, 7, 3, 2);
    var sent := Opening([1, 2], 0, 7, 3, 2);
    forall x ensures x in Posted(SQUARE, 0, sent) <==> x in {ToOne, ToTwo} {
      assert x == ToOne ==> Sent(1, ToOne.payload) in sent;
      assert x == ToTwo ==> Sent(2, ToTwo.payload) in sent;
    }
    assert Posted(SQUARE, 0, sent) == {ToOne, ToTwo};
  }

  lemma {:induction false} TakesUp(self: Node, links: seq<Node>, sender: Node, p: Payload, next: Payload,
        sent: seq<Sent>)
    requires p.RouteReq? && p.reqId == 7 && p.target != self && p.ttl > 0 && self !in p.path && 0 < |p.path| <= 6
    requires next == RouteReq(7, p.target, p.ttl - 1, p.path + [self]) && sent == Onward(links, sender, next, p.path)
    ensures Handle(self, links, Memory({}, map[]), sender, p) == (PASSED, Effects(sent, None, None))
  {
    assert {} + {7} == PASSED.seen;
  }

  lemma {:induction false} PostedOne(t: Topology, from: Node, to: Node, p: Payload)
    requires to in LinksOf(t, from)
    ensures Posted(t, from, [Sent(to, p)]) == {Msg(from, to, p)}
  {
    forall x ensures x in Posted(t, from, [Sent(to, p)]) <==> x == Msg(from, to, p) {
      assert Sent(to, p) in [Sent(to, p)];
    }
  }

  lemma {:induction false} TwoPassesOn()
    ensures After(SQUARE, OPENED, Deliver(ToTwo)) == DETOURED
  {
    OnwardTwo(0, 1, 0, Detour.payload, [0]);
    assert [0] + [2] == [0, 2];
    TakesUp(2, [0, 1], 0, ToTwo.payload, Detour.payload, [Sent(1, Detour.payload)]);
    PostedOne(SQUARE, 2, 1, Detour.payload);
  }

  lemma {:induction false} OnePassesOn()
    ensures After(SQUARE, DETOURED, Deliver(Detour)) == STRANDED
  {
    OnwardTwo(0, 2, 2, TooLate.payload, [0, 2]);
    OnwardNext([0, 2], 3, 2, TooLate.payload, [0, 2]);
    assert [0, 2] + [3] == [0, 2, 3];
    assert [0, 2] + [1] == [0, 2, 1];
    TakesUp(1, [0, 2, 3], 2, Detour.payload, TooLate.payload, [Sent(3, TooLate.payload)]);
    PostedOne(SQUARE, 1, 3, TooLate.payload);
    assert DETOURED.memory[1 := PASSED] == STRANDED.memory;
  }

  lemma {:induction false} RestIsQuiet()
    ensures After(SQUARE, STRANDED, Deliver(TooLate)) == ENDED
    ensures After(SQUARE, ENDED, Deliver(ToOne)) == ENDED
  {
    assert Posted(SQUARE, 3, []) == {} && Posted(SQUARE, 1, []) == {};
    assert ENDED.memory[1 := PASSED] == ENDED.memory;
  }

  lemma {:induction false} SquareRoute()
    ensures Symmetric(SQUARE) && Route(SQUARE, SEARCH, [0, 1, 3])
  {
  }

  ghost predicate Ran(steps: seq<Step>, net: Net, arrived: set<Msg>) {
    && IsRun(SQUARE, START, steps) && RunFrom(SQUARE, START, steps) == net && Arrived(steps) == arrived
    && forall x | x in steps :: !x.TimeOut?
  }

  lemma {:induction false} GoOn(steps: seq<Step>, net: Net, arrived: set<Msg>, s: Step,
        after: Net) returns (more: seq<Step>)
    requires Ran(steps, net, arrived) && Enabled(net, s) && !s.TimeOut? && After(SQUARE, net, s) == after
    ensures Ran(more, after, arrived + if s.Deliver? then {s.msg} else {})
  {
    RunStep(SQUARE, steps, s);
    more := steps + [s];
    assert more[..|more| - 1] == steps;
  }

  lemma {:induction false} SearchDetours() returns (steps: seq<Step>)
    ensures Ran(steps, DETOURED, {ToTwo})
  {
    SearchOpens();
    TwoPassesOn();
    assert Ran([], START, {});
    steps := GoOn([], START, {}, Discover(0, 7, 3, 2), OPENED);
    steps := GoOn(steps, OPENED, {}, Deliver(ToTwo), DETOURED);
    assert {} + {ToTwo} == {ToTwo};
  }

  lemma {:induction false} SearchStrands() returns (steps: seq<Step>)
    ensures Ran(steps, STRANDED, {ToTwo, Detour})
  {
    OnePassesOn();
    steps := SearchDetours();
    steps := GoOn(steps, DETOURED, {ToTwo}, Deliver(Detour), STRANDED);
    assert {ToTwo} + {Detour} == {ToTwo, Detour};
  }

  lemma {:induction false} SearchEnds() returns (steps: seq<Step>)
    ensures Ran(steps, ENDED, {ToTwo, Detour} + {TooLate} + {ToOne})
  {
    RestIsQuiet();
    steps := SearchStrands();
    steps := GoOn(steps, STRANDED, {ToTwo, Detour}, Deliver(TooLate), ENDED);
    steps := GoOn(steps, ENDED, {ToTwo, Detour} + {TooLate}, Deliver(ToOne), ENDED);
  }

  /** Links work both ways and the ttl allows for the route through node 1; but the copy that came round by node 2
      gets there first and uses the ttl up. Every message arrives, and no route is found. */
  lemma {:induction false} DetourShadowsRoute() returns (steps: seq<Step>)
    ensures Symmetric(SQUARE) && Route(SQUARE, SEARCH, [0, 1, 3]) && IsRun(SQUARE, START, steps)
    ensures RunFrom(SQUARE, START, steps).requests == map[7 := SEARCH]
    ensures RunFrom(SQUARE, START, steps).soup <= Arrived(steps) && forall n :: TimeOut(n, 7) !in steps
    ensures RunFrom(SQUARE, START, steps).accepted == {}
  {
    SquareRoute();
    steps := SearchEnds();
  }
}
