/** What the mailbox does do: what each call stores and sends, and who ends with a copy when nothing is lost. */
module MailboxSpread {
  import opened Seqs
  import opened MailboxProtocol

  // ---------------------------------------------------------------- what a call does

  ghost predicate StoresKept(net: Net, net': Net) {
    forall n :: StoreOf(net', n) == StoreOf(net, n)
  }

  /** The node gains this copy; nothing else is stored or dropped anywhere. */
  ghost predicate Gains(net: Net, net': Net, node: Node, id: MsgId, copy: Copy) {
    && id !in StoreOf(net, node) && StoreOf(net', node) == StoreOf(net, node)[id := copy]
    && forall n | n != node :: StoreOf(net', n) == StoreOf(net, n)
  }

  function PutsTo(node: Node, id: MsgId, hop: int, receivers: set<Node>): set<Put> {
    set n | n in receivers :: Put(node, n, id, hop)
  }

  /** The node puts the record on the wire, with this hop, to these receivers and nobody else. */
  ghost predicate Sends(net: Net, net': Net, node: Node, id: MsgId, hop: int, receivers: set<Node>) {
    net'.wire == net.wire + PutsTo(node, id, hop, receivers)
  }

  ghost function Addressee(direct: Option<Node>): set<Node> {
    if direct.Some? then {direct.value} else {}
  }

  /** A publisher that does not hold the record stores it, trusted and with hop 0, reports it stored and relayed, and
      sends it to all its peers and to the addressee if known. One that holds it only sends it to the addressee. At a
      limit of 0 nothing happens. */
  lemma {:induction false} PublishDoes(net: Net, node: Node, id: MsgId, direct: Option<Node>, peers: set<Node>,
        maxHop: int)
    ensures var net' := After(net, Publish(node, id, direct, peers, maxHop));
      var report := DeliverOrStore(node, StoreOf(net, node), id, 0, node, direct, peers, maxHop).1;
      && net'.published == net.published + {(node, id)} && net'.losses == net.losses
      && report.stored == report.relayed == (maxHop > 0 && id !in StoreOf(net, node))
      && net'.relays == net.relays + (if report.relayed then [(node, id)] else [])
      && if report.stored then
          Gains(net, net', node, id, Copy(0, Trusted, node))
          && Sends(net, net', node, id, 0, peers + Addressee(direct))
        else
          StoresKept(net, net') && Sends(net, net', node, id, 0, if maxHop > 0 then Addressee(direct) else {})
  {
    var net' := After(net, Publish(node, id, direct, peers, maxHop));
    var stored := maxHop > 0 && id !in StoreOf(net, node);
    var to := if maxHop <= 0 then {} else (if stored then peers else {}) + Addressee(direct);
    SentSet(node, id, 0, direct, peers, stored);
    assert net'.wire == net.wire + PutsTo(node, id, 0, to);
  }

  lemma {:induction false} SentSet(node: Node, id: MsgId, hop: int, direct: Option<Node>, peers: set<Node>, relay: bool)
    ensures (if direct.Some? then {Put(node, direct.value, id, hop)} else {})
        + (if relay then (set p | p in peers :: Put(node, p, id, hop)) else {})
      == PutsTo(node, id, hop, (if relay then peers else {}) + Addressee(direct))
  {
  }

  /** A node that receives a put of a record it does not hold stores it one hop further out, while that is below the
      limit: at hop 1 as normal, passing it on to all its peers, from hop 2 in quarantine, passing it on to nobody. */
  lemma {:induction false} ReceiveDoes(net: Net, put: Put, peers: set<Node>, maxHop: int)
    ensures var net' := After(net, Receive(put, peers, maxHop));
      var report := Ingest(StoreOf(net, put.to), put, peers, maxHop).1;
      var hop := if put.hop < 0 then 1 else put.hop + 1;
      && net'.published == net.published && net'.losses == net.losses
      && report.stored == (put.id !in StoreOf(net, put.to) && hop < maxHop)
      && report.relayed == (report.stored && hop == 1)
      && net'.relays == net.relays + (if report.relayed then [(put.to, put.id)] else [])
      && Sends(net, net', put.to, put.id, hop, if report.relayed then peers else {})
      && if report.stored then
          Gains(net, net', put.to, put.id, Copy(hop, if hop == 1 then Normal else Quarantine, put.from))
        else StoresKept(net, net')
  {
    var net' := After(net, Receive(put, peers, maxHop));
    var hop := if put.hop < 0 then 1 else put.hop + 1;
    var relay := put.id !in StoreOf(net, put.to) && hop < maxHop && hop == 1;
    SentSet(put.to, put.id, hop, None, peers, relay);
    assert (if relay then peers else {}) + Addressee(None) == if relay then peers else {};
    assert net'.wire == net.wire + PutsTo(put.to, put.id, hop, if relay then peers else {});
  }

  // ---------------------------------------------------------------- runs without losses

  /** Which peers a node's relay reaches. */
  type Roster = map<Node, set<Node>>

  function PeersOf(roster: Roster, n: Node): set<Node> {
    if n in roster then roster[n] else {}
  }

  predicate SteadyStep(roster: Roster, maxHop: int, s: Step) {
    match s
    case Publish(node, _, _, peers, limit) => peers == PeersOf(roster, node) && limit == maxHop
    case Receive(put, peers, limit) => peers == PeersOf(roster, put.to) && limit == maxHop
    case Lose(_, _) => false
  }

  /** Peers and limit stay what they are, and no copy is lost. */
  ghost predicate Steady(roster: Roster, maxHop: int, steps: seq<Step>) {
    IsRun(steps) && forall s | s in steps :: SteadyStep(roster, maxHop, s)
  }

  /** Every put has been delivered. */
  ghost predicate Settled(roster: Roster, maxHop: int, steps: seq<Step>) {
    forall put | put in RunFrom(steps).wire :: Receive(put, PeersOf(roster, put.to), maxHop) in steps
  }

  ghost predicate Holds(steps: seq<Step>, n: Node, id: MsgId) {
    id in StoreOf(RunFrom(steps), n)
  }

  /** The sender holds the record at this hop, near enough to pass it on, and the receiver is one of its peers. */
  predicate PassedOn(roster: Roster, net: Net, put: Put) {
    && put.id in StoreOf(net, put.from) && StoreOf(net, put.from)[put.id].hop == put.hop <= 1
    && put.to in PeersOf(roster, put.from)
  }

  /** The sender has published the record to this addressee. */
  predicate Addressed(roster: Roster, maxHop: int, steps: seq<Step>, put: Put) {
    put.hop == 0 && maxHop > 0
      && Publish(put.from, put.id, Some(put.to), PeersOf(roster, put.from), maxHop) in steps
  }

  ghost predicate WireAccounted(roster: Roster, maxHop: int, steps: seq<Step>) {
    forall put :: put in RunFrom(steps).wire
      <==> (PassedOn(roster, RunFrom(steps), put) || Addressed(roster, maxHop, steps, put))
  }

  /** Whoever published the record or was delivered a put of it within the limit holds it. */
  ghost predicate ReachedHold(maxHop: int, steps: seq<Step>) {
    && (forall n, id | (n, id) in RunFrom(steps).published && maxHop > 0 :: Holds(steps, n, id))
    && (forall put, peers | Receive(put, peers, maxHop) in steps && put.hop + 1 < maxHop ::
        Holds(steps, put.to, put.id))
    && (forall n, id | Holds(steps, n, id) :: StoreOf(RunFrom(steps), n)[id].hop < maxHop)
  }

  lemma {:induction false} LastStep(steps: seq<Step>)
    requires steps != []
    ensures var init, s := steps[..|steps| - 1], steps[|steps| - 1];
      RunFrom(steps) == After(RunFrom(init), s) && forall x :: x in steps <==> x in init || x == s
  {
    assert steps == steps[..|steps| - 1] + [steps[|steps| - 1]];
  }

  lemma {:induction false} SteadyInit(roster: Roster, maxHop: int, steps: seq<Step>)
    requires Steady(roster, maxHop, steps) && steps != []
    ensures Steady(roster, maxHop, steps[..|steps| - 1]) && SteadyStep(roster, maxHop, steps[|steps| - 1])
    ensures Enabled(RunFrom(steps[..|steps| - 1]), steps[|steps| - 1])
  {
    LastStep(steps);
  }

  lemma {:induction false} PublishAccounted(roster: Roster, maxHop: int, steps: seq<Step>)
    requires Steady(roster, maxHop, steps) && steps != [] && steps[|steps| - 1].Publish?
    requires WireAccounted(roster, maxHop, steps[..|steps| - 1])
    ensures WireAccounted(roster, maxHop, steps)
  {
    var init, s := steps[..|steps| - 1], steps[|steps| - 1];
    var net, net' := RunFrom(init), RunFrom(steps);
    LastStep(steps);
    SteadyInit(roster, maxHop, steps);
    PublishDoes(net, s.node, s.id, s.direct, s.peers, s.maxHop);
    forall put ensures put in net'.wire <==> (PassedOn(roster, net', put) || Addressed(roster, maxHop, steps, put)) {
      assert put in net.wire <==> (PassedOn(roster, net, put) || Addressed(roster, maxHop, init, put));
    }
  }

  lemma {:induction false} ReceiveAccounted(roster: Roster, maxHop: int, steps: seq<Step>)
    requires Steady(roster, maxHop, steps) && steps != [] && steps[|steps| - 1].Receive?
    requires WireAccounted(roster, maxHop, steps[..|steps| - 1])
    ensures WireAccounted(roster, maxHop, steps)
  {
    var init, s := steps[..|steps| - 1], steps[|steps| - 1];
    var net, net' := RunFrom(init), RunFrom(steps);
    LastStep(steps);
    SteadyInit(roster, maxHop, steps);
    ReceiveDoes(net, s.put, s.peers, s.maxHop);
    forall put ensures put in net'.wire <==> (PassedOn(roster, net', put) || Addressed(roster, maxHop, steps, put)) {
      assert put in net.wire <==> (PassedOn(roster, net, put) || Addressed(roster, maxHop, init, put));
    }
  }

  /** In a run without losses exactly these puts are on the wire: those to the peers of whoever holds the record with
      hop 0 or 1, and those to the addressees it was published to. */
  lemma {:induction false} WireExactly(roster: Roster, maxHop: int, steps: seq<Step>)
    requires Steady(roster, maxHop, steps)
    ensures WireAccounted(roster, maxHop, steps)
  {
    if steps != [] {
      SteadyInit(roster, maxHop, steps);
      WireExactly(roster, maxHop, steps[..|steps| - 1]);
      match steps[|steps| - 1]
      case Publish(_, _, _, _, _) => PublishAccounted(roster, maxHop, steps);
      case Receive(_, _, _) => ReceiveAccounted(roster, maxHop, steps);
    }
  }

  lemma {:induction false} PublishReaches(roster: Roster, maxHop: int, steps: seq<Step>)
    requires Steady(roster, maxHop, steps) && steps != [] && steps[|steps| - 1].Publish?
    requires ReachedHold(maxHop, steps[..|steps| - 1])
    ensures ReachedHold(maxHop, steps)
  {
    var init, s := steps[..|steps| - 1], steps[|steps| - 1];
    LastStep(steps);
    SteadyInit(roster, maxHop, steps);
    PublishDoes(RunFrom(init), s.node, s.id, s.direct, s.peers, s.maxHop);
    forall n, id | Holds(init, n, id) ensures Holds(steps, n, id) {
    }
  }

  lemma {:induction false} ReceiveReaches(roster: Roster, maxHop: int, steps: seq<Step>)
    requires Steady(roster, maxHop, steps) && steps != [] && steps[|steps| - 1].Receive?
    requires ReachedHold(maxHop, steps[..|steps| - 1])
    ensures ReachedHold(maxHop, steps)
  {
    var init, s := steps[..|steps| - 1], steps[|steps| - 1];
    LastStep(steps);
    SteadyInit(roster, maxHop, steps);
    RunsKeepInv(init);
    assert GoodPut(RunFrom(init), s.put);
    ReceiveDoes(RunFrom(init), s.put, s.peers, s.maxHop);
    forall n, id | Holds(init, n, id) ensures Holds(steps, n, id) {
    }
    forall put, peers | Receive(put, peers, maxHop) in steps && put.hop + 1 < maxHop
      ensures Holds(steps, put.to, put.id)
    {
      if Receive(put, peers, maxHop) in init {
        assert Holds(init, put.to, put.id);
      }
    }
  }

  lemma {:induction false} ReachedNodesHold(roster: Roster, maxHop: int, steps: seq<Step>)
    requires Steady(roster, maxHop, steps)
    ensures ReachedHold(maxHop, steps)
  {
    if steps != [] {
      SteadyInit(roster, maxHop, steps);
      ReachedNodesHold(roster, maxHop, steps[..|steps| - 1]);
      match steps[|steps| - 1]
      case Publish(_, _, _, _, _) => PublishReaches(roster, maxHop, steps);
      case Receive(_, _, _) => ReceiveReaches(roster, maxHop, steps);
    }
  }

  /** When nothing is lost and everything is delivered, a node ends with a copy exactly if it published the record or
      some put of it came to the node with a hop that the limit lets it go beyond. */
  lemma {:induction false} HoldersExactly(roster: Roster, maxHop: int, steps: seq<Step>, n: Node, id: MsgId)
    requires Steady(roster, maxHop, steps) && Settled(roster, maxHop, steps)
    ensures Holds(steps, n, id) <==>
      || (maxHop > 0 && (n, id) in RunFrom(steps).published)
      || exists put :: put in RunFrom(steps).wire && put.to == n && put.id == id && put.hop + 1 < maxHop
  {
    var net := RunFrom(steps);
    RunsKeepInv(steps);
    ReachedNodesHold(roster, maxHop, steps);
    if Holds(steps, n, id) {
      var copy := StoreOf(net, n)[id];
      assert GoodCopy(net, n, id, copy) && copy.hop < maxHop;
    }
    if put :| put in net.wire && put.to == n && put.id == id && put.hop + 1 < maxHop {
      assert Receive(put, PeersOf(roster, put.to), maxHop) in steps;
      assert Holds(steps, put.to, put.id);
    }
  }

  /** A chain of at most two puts from a publisher to this node. */
  ghost predicate WithinTwoPuts(net: Net, n: Node, id: MsgId) {
    || (exists p: Node :: (p, id) in net.published && Put(p, n, id, 0) in net.wire)
    || (exists p: Node, m: Node ::
        (p, id) in net.published && Put(p, m, id, 0) in net.wire && Put(m, n, id, 1) in net.wire)
  }

  /** For limits of three and more: the publishers and whoever a chain of at most two puts reaches. */
  lemma {:induction false} HoldersWithinTwoPuts(roster: Roster, maxHop: int, steps: seq<Step>, n: Node, id: MsgId)
    requires Steady(roster, maxHop, steps) && Settled(roster, maxHop, steps) && maxHop >= 3
    ensures Holds(steps, n, id) <==> (n, id) in RunFrom(steps).published || WithinTwoPuts(RunFrom(steps), n, id)
  {
    var net := RunFrom(steps);
    RunsKeepInv(steps);
    HoldersExactly(roster, maxHop, steps, n, id);
    if put :| put in net.wire && put.to == n && put.id == id && put.hop + 1 < maxHop {
      assert GoodPut(net, put);
      if put.hop == 0 {
        assert put == Put(put.from, n, id, 0);
      } else {
        var q :| q in net.wire && q.to == put.from && q.id == id && q.hop == 0;
        assert GoodPut(net, q) && q == Put(q.from, put.from, id, 0) && put == Put(put.from, n, id, 1);
      }
    }
  }

  /** Every peer of a node that ends with a copy of hop 0 or 1 ends with one as well. */
  lemma {:induction false} PeersOfNearCopiesHold(roster: Roster, maxHop: int, steps: seq<Step>, m: Node, n: Node,
        id: MsgId)
    requires Steady(roster, maxHop, steps) && Settled(roster, maxHop, steps) && maxHop >= 3
    requires Holds(steps, m, id) && StoreOf(RunFrom(steps), m)[id].hop <= 1 && n in PeersOf(roster, m)
    ensures Holds(steps, n, id)
  {
    var put := Put(m, n, id, StoreOf(RunFrom(steps), m)[id].hop);
    WireExactly(roster, maxHop, steps);
    assert PassedOn(roster, RunFrom(steps), put);
    HoldersExactly(roster, maxHop, steps, n, id);
  }

  // ---------------------------------------------------------------- a peer of a peer that gets nothing

  /** Node 0 reaches 1 and 2, node 1 reaches 2, and node 2 reaches 3. */
  const ROSTER: Roster := map[0 := {1, 2}, 1 := {2}, 2 := {3}]

  const ToOne := Put(0, 1, 7, 0)
  const ToTwo := Put(0, 2, 7, 0)
  const RoundAbout := Put(1, 2, 7, 1)
  const FIRST: Store := map[7 := Copy(0, Trusted, 0)]
  const NEAR: Store := map[7 := Copy(1, Normal, 0)]
  const FAR: Store := map[7 := Copy(2, Quarantine, 1)]
  const POSTED := Net(map[0 := FIRST], {ToOne, ToTwo}, {(0, 7)}, [(0, 7)], [])
  const PASSED :=
    Net(map[0 := FIRST, 1 := NEAR], {ToOne, ToTwo, RoundAbout}, {(0, 7)}, [(0, 7), (1, 7)], [])
  const ENDED := PASSED.(stores := map[0 := FIRST, 1 := NEAR, 2 := FAR])

  lemma {:induction false} PutsToOne(node: Node, id: MsgId, hop: int, n: Node)
    ensures (set p | p in {n} :: Put(node, p, id, hop)) == {Put(node, n, id, hop)}
  {
  }

  lemma {:induction false} ZeroPublishes()
    ensures After(START, Publish(0, 7, None, {1, 2}, 3)) == POSTED
  {
    assert (set p: Node | p in {1, 2} :: Put(0, p, 7, 0)) == {ToOne, ToTwo};
  }

  lemma {:induction false} OneReceives()
    ensures After(POSTED, Receive(ToOne, {2}, 3)) == PASSED
  {
    PutsToOne(1, 7, 1, 2);
    assert {} + {RoundAbout} == {RoundAbout} && POSTED.wire + {RoundAbout} == PASSED.wire;
  }

  lemma {:induction false} TwoReceives()
    ensures After(PASSED, Receive(RoundAbout, {3}, 3)) == ENDED
    ensures After(ENDED, Receive(ToTwo, {3}, 3)) == ENDED
  {
    assert PASSED.wire + {} == ENDED.wire && ENDED.stores[2 := FAR] == ENDED.stores;
  }

  lemma {:induction false} GoOn(steps: seq<Step>, net: Net, s: Step, after: Net) returns (more: seq<Step>)
    requires Steady(ROSTER, 3, steps) && RunFrom(steps) == net
    requires SteadyStep(ROSTER, 3, s) && Enabled(net, s) && After(net, s) == after
    ensures Steady(ROSTER, 3, more) && RunFrom(more) == after && forall x :: x in more <==> x in steps || x == s
  {
    more := steps + [s];
    assert more[..|more| - 1] == steps;
    LastStep(more);
  }

  /** Every put arrives and nothing is lost; but the copy that came round by node 1 is stored first, in quarantine, so
      node 2 does not pass on the one it had from node 0, and its peer 3, two puts from the publisher, gets nothing. */
  lemma {:induction false} QuarantineShadowsPeer() returns (steps: seq<Step>)
    ensures Steady(ROSTER, 3, steps) && Settled(ROSTER, 3, steps) && (0, 7) in RunFrom(steps).published
    ensures 2 in PeersOf(ROSTER, 0) && 3 in PeersOf(ROSTER, 2) && Holds(steps, 2, 7) && !Holds(steps, 3, 7)
  {
    ZeroPublishes();
    OneReceives();
    TwoReceives();
    var one := GoOn([], START, Publish(0, 7, None, {1, 2}, 3), POSTED);
    var two := GoOn(one, POSTED, Receive(ToOne, {2}, 3), PASSED);
    var three := GoOn(two, PASSED, Receive(RoundAbout, {3}, 3), ENDED);
    steps := GoOn(three, ENDED, Receive(ToTwo, {3}, 3), ENDED);
  }
}
