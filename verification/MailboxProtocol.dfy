/** `mailbox/DeliverOrStore.kt`: honest nodes exchanging mailbox puts, one call at a time. */
module MailboxProtocol {
  import opened Numbers
  import opened Seqs

  type Node = nat

  type MsgId = nat

  datatype Tier = Trusted | Normal | Quarantine

  datatype Copy = Copy(hop: int, tier: Tier, from: Node)

  /** A `mailbox_put` on the wire. The sender's name is authenticated. */
  datatype Put = Put(from: Node, to: Node, id: MsgId, hop: int)

  type Store = map<MsgId, Copy>

  // ---------------------------------------------------------------- the code

  /** `normalizeMailboxHop` of an integral hop. */
  function NormalizeHop(hop: int): int {
    Max(0, hop)
  }

  /** `mailboxTierFromHop`. */
  function TierFromHop(hop: int): Tier {
    if hop <= 0 then Trusted else if hop == 1 then Normal else Quarantine
  }

  /** `relayHopAfterWireIngress`: the hop on the wire is not trusted, and a known copy only pushes it up. */
  function RelayHop(wireHop: int, existing: Option<int>): int {
    var fromWire := Max(NormalizeHop(wireHop) + 1, 1);
    if existing.None? then fromWire else Max(fromWire, NormalizeHop(existing.value) + 1)
  }

  datatype Result = Result(stored: bool, relayed: bool, sent: set<Put>)

  /** `deliverOrStoreMailboxPut` at node `self`: what the store becomes and which puts go out. `direct` is the known
      address of the recipient; `peers` are the peers a relay reaches. */
  function DeliverOrStore(self: Node, store: Store, id: MsgId, hop: int, from: Node, direct: Option<Node>,
        peers: set<Node>, maxHop: int): (Store, Result)
  {
    var h := NormalizeHop(hop);
    if h >= maxHop then (store, Result(false, false, {}))
    else
      var tier := TierFromHop(h);
      var stored := id !in store;
      var relayed := stored && h < maxHop && tier != Quarantine;
      (if stored then store[id := Copy(h, tier, from)] else store,
       Result(stored, relayed,
         (if direct.Some? then {Put(self, direct.value, id, h)} else {})
         + (if relayed then (set p | p in peers :: Put(self, p, id, h)) else {})))
  }

  /** `ingestMailboxPut` at the receiving node. */
  function Ingest(store: Store, put: Put, peers: set<Node>, maxHop: int): (Store, Result) {
    var hop := RelayHop(put.hop, if put.id in store then Some(store[put.id].hop) else None);
    if hop >= maxHop then (store, Result(false, false, {}))
    else DeliverOrStore(put.to, store, put.id, hop, put.from, None, peers, maxHop)
  }

  class Mailbox {
    const self: Node
    var store: Store

    constructor (self: Node)
      ensures this.self == self && store == map[]
    {
      this.self := self;
      store := map[];
    }

    method DeliverOrStorePut(id: MsgId, hop: int, from: Node, direct: Option<Node>, peers: set<Node>,
          maxHop: int) returns (r: Result)
      modifies this
      ensures (store, r) == DeliverOrStore(self, old(store), id, hop, from, direct, peers, maxHop)
    {
      var h := NormalizeHop(hop);
      if h >= maxHop {
        return Result(false, false, {});
      }
      var tier := TierFromHop(h);
      var stored := id !in store;
      if stored {
        store := store[id := Copy(h, tier, from)];
      }
      var delivered, relays := {}, {};
      if direct.Some? {
        delivered := {Put(self, direct.value, id, h)};
      }
      var relayed := stored && h < maxHop && tier != Quarantine;
      if relayed {
        relays := set p | p in peers :: Put(self, p, id, h);
      }
      r := Result(stored, relayed, delivered + relays);
    }

    method IngestPut(put: Put, peers: set<Node>, maxHop: int) returns (r: Result)
      requires put.to == self
      modifies this
      ensures (store, r) == Ingest(old(store), put, peers, maxHop)
    {
      var relayHop := RelayHop(put.hop, if put.id in store then Some(store[put.id].hop) else None);
      if relayHop >= maxHop {
        return Result(false, false, {});
      }
      r := DeliverOrStorePut(put.id, relayHop, put.from, None, peers, maxHop);
    }
  }

  // ---------------------------------------------------------------- runs

  /** `wire` holds every put ever sent, to be delivered any number of times; `relays` and `losses` record, in order,
      which node relayed which id and which stored copy was evicted, expired or consumed. */
  datatype Net = Net(stores: map<Node, Store>, wire: set<Put>, published: set<(Node, MsgId)>,
      relays: seq<(Node, MsgId)>, losses: seq<(Node, MsgId)>)

  datatype Step =
    | Publish(node: Node, id: MsgId, direct: Option<Node>, peers: set<Node>, maxHop: int)
    | Receive(put: Put, peers: set<Node>, maxHop: int)
    | Lose(node: Node, id: MsgId)

  const START := Net(map[], {}, {}, [], [])

  function StoreOf(net: Net, n: Node): Store {
    if n in net.stores then net.stores[n] else map[]
  }

  predicate Enabled(net: Net, s: Step) {
    match s
    case Publish(_, _, _, _, _) => true
    case Receive(put, _, _) => put in net.wire
    case Lose(node, id) => id in StoreOf(net, node)
  }

  function Applied(net: Net, node: Node, id: MsgId, r: (Store, Result)): Net {
    net.(stores := net.stores[node := r.0], wire := net.wire + r.1.sent,
      relays := if r.1.relayed then net.relays + [(node, id)] else net.relays)
  }

  function After(net: Net, s: Step): Net {
    match s
    case Publish(node, id, direct, peers, maxHop) =>
      Applied(net.(published := net.published + {(node, id)}), node, id,
        DeliverOrStore(node, StoreOf(net, node), id, 0, node, direct, peers, maxHop))
    case Receive(put, peers, maxHop) =>
      Applied(net, put.to, put.id, Ingest(StoreOf(net, put.to), put, peers, maxHop))
    case Lose(node, id) =>
      net.(stores := net.stores[node := StoreOf(net, node) - {id}], losses := net.losses + [(node, id)])
  }

  function RunFrom(steps: seq<Step>): Net {
    if steps == [] then START else After(RunFrom(steps[..|steps| - 1]), steps[|steps| - 1])
  }

  ghost predicate IsRun(steps: seq<Step>) {
    steps == [] || (IsRun(steps[..|steps| - 1]) && Enabled(RunFrom(steps[..|steps| - 1]), steps[|steps| - 1]))
  }

  // ---------------------------------------------------------------- the invariant

  /** A put carries hop 0 from a publisher, or hop 1 from a node that got it with hop 0. */
  ghost predicate GoodPut(net: Net, put: Put) {
    || (put.hop == 0 && (put.from, put.id) in net.published)
    || (put.hop == 1 && exists q :: q in net.wire && q.to == put.from && q.id == put.id && q.hop == 0)
  }

  /** A copy has the tier of its hop; hop 0 means the node published it, otherwise the hop is one more than the hop
      its named sender put on the wire. */
  ghost predicate GoodCopy(net: Net, node: Node, id: MsgId, c: Copy) {
    && c.tier == TierFromHop(c.hop)
    && if c.hop == 0 then c.from == node && (node, id) in net.published
       else Put(c.from, node, id, c.hop - 1) in net.wire
  }

  function Count(log: seq<(Node, MsgId)>, x: (Node, MsgId)): nat {
    if log == [] then 0 else Count(log[..|log| - 1], x) + (if log[|log| - 1] == x then 1 else 0)
  }

  /** Relays of an id by a node never outnumber the copies it has lost, plus the one it may hold. */
  ghost predicate RelaysAccounted(net: Net, node: Node, id: MsgId) {
    Count(net.relays, (node, id)) <= Count(net.losses, (node, id)) + (if id in StoreOf(net, node) then 1 else 0)
  }

  ghost predicate Inv(net: Net) {
    && (forall put | put in net.wire :: GoodPut(net, put))
    && (forall node, id | id in StoreOf(net, node) :: GoodCopy(net, node, id, StoreOf(net, node)[id]))
    && (forall node, id :: RelaysAccounted(net, node, id))
  }

  lemma {:induction false} CountAppend(log: seq<(Node, MsgId)>, y: (Node, MsgId), x: (Node, MsgId))
    ensures Count(log + [y], x) == Count(log, x) + (if x == y then 1 else 0)
  {
    assert (log + [y])[..|log|] == log;
  }

  lemma {:induction false} ApplyKeepsWire(net: Net, node: Node, id: MsgId, hop: int, from: Node,
        direct: Option<Node>, peers: set<Node>, maxHop: int)
    requires Inv(net) && hop >= 0 && GoodCopy(net, node, id, Copy(hop, TierFromHop(hop), from))
    requires direct.Some? ==> hop == 0
    ensures var net' := Applied(net, node, id,
        DeliverOrStore(node, StoreOf(net, node), id, hop, from, direct, peers, maxHop));
      forall put | put in net'.wire :: GoodPut(net', put)
  {
    var net' := Applied(net, node, id, DeliverOrStore(node, StoreOf(net, node), id, hop, from, direct, peers, maxHop));
    forall put | put in net'.wire ensures GoodPut(net', put) {
      if put in net.wire {
        assert GoodPut(net, put);
      } else if hop == 1 {
        assert Put(from, node, id, 0) in net'.wire;
      }
    }
  }

  /** Storing, sending and relaying one copy that is itself good. */
  lemma {:induction false} ApplyKeeps(net: Net, node: Node, id: MsgId, hop: int, from: Node, direct: Option<Node>,
        peers: set<Node>, maxHop: int)
    requires Inv(net) && hop >= 0 && GoodCopy(net, node, id, Copy(hop, TierFromHop(hop), from))
    requires direct.Some? ==> hop == 0
    ensures Inv(Applied(net, node, id, DeliverOrStore(node, StoreOf(net, node), id, hop, from, direct, peers, maxHop)))
  {
    var r := DeliverOrStore(node, StoreOf(net, node), id, hop, from, direct, peers, maxHop);
    var net' := Applied(net, node, id, r);
    ApplyKeepsWire(net, node, id, hop, from, direct, peers, maxHop);
    forall n, i ensures RelaysAccounted(net', n, i) {
      assert RelaysAccounted(net, n, i);
      CountAppend(net.relays, (node, id), (n, i));
    }
    forall n, i | i in StoreOf(net', n) ensures GoodCopy(net', n, i, StoreOf(net', n)[i]) {
      if n != node || i != id {
        assert i in StoreOf(net, n) && GoodCopy(net, n, i, StoreOf(net, n)[i]);
      } else if id in StoreOf(net, node) {
        assert GoodCopy(net, node, id, StoreOf(net, node)[id]);
      }
    }
  }

  lemma {:induction false} IngestKeeps(net: Net, put: Put, peers: set<Node>, maxHop: int)
    requires Inv(net) && put in net.wire
    ensures Inv(After(net, Receive(put, peers, maxHop)))
  {
    assert GoodPut(net, put);
    var store := StoreOf(net, put.to);
    if put.id in store {
      assert GoodCopy(net, put.to, put.id, store[put.id]);
      assert Ingest(store, put, peers, maxHop).0 == store && Ingest(store, put, peers, maxHop).1.sent == {};
      SameStores(net, put.to, put.id);
    } else if put.hop + 1 >= maxHop {
      SameStores(net, put.to, put.id);
    } else {
      assert GoodCopy(net, put.to, put.id, Copy(put.hop + 1, TierFromHop(put.hop + 1), put.from));
      ApplyKeeps(net, put.to, put.id, put.hop + 1, put.from, None, peers, maxHop);
    }
  }

  lemma {:induction false} SameStores(net: Net, node: Node, id: MsgId)
    requires Inv(net)
    ensures forall b :: Inv(Applied(net, node, id, (StoreOf(net, node), Result(b, false, {}))))
  {
    forall b ensures Inv(Applied(net, node, id, (StoreOf(net, node), Result(b, false, {})))) {
      var net' := Applied(net, node, id, (StoreOf(net, node), Result(b, false, {})));
      assert net'.wire == net.wire;
      assert forall n :: StoreOf(net', n) == StoreOf(net, n);
      assert forall n, i | i in StoreOf(net, n) :: GoodCopy(net, n, i, StoreOf(net, n)[i]);
      forall n, i ensures RelaysAccounted(net', n, i) {
        assert RelaysAccounted(net, n, i);
      }
      assert forall put | put in net.wire :: GoodPut(net, put);
    }
  }

  lemma {:induction false} LoseKeeps(net: Net, node: Node, id: MsgId)
    requires Inv(net) && id in StoreOf(net, node)
    ensures Inv(After(net, Lose(node, id)))
  {
    var net' := After(net, Lose(node, id));
    forall n, i ensures RelaysAccounted(net', n, i) {
      assert RelaysAccounted(net, n, i);
      CountAppend(net.losses, (node, id), (n, i));
    }
    forall n, i | i in StoreOf(net', n) ensures GoodCopy(net', n, i, StoreOf(net', n)[i]) {
      assert i in StoreOf(net, n) && GoodCopy(net, n, i, StoreOf(net, n)[i]);
    }
    forall put | put in net'.wire ensures GoodPut(net', put) {
      assert GoodPut(net, put);
    }
  }

  lemma {:induction false} PublishedGrows(net: Net, x: (Node, MsgId))
    requires Inv(net)
    ensures Inv(net.(published := net.published + {x}))
  {
    var net' := net.(published := net.published + {x});
    forall n, i ensures RelaysAccounted(net', n, i) {
      assert RelaysAccounted(net, n, i);
    }
    forall n, i | i in StoreOf(net', n) ensures GoodCopy(net', n, i, StoreOf(net', n)[i]) {
      assert GoodCopy(net, n, i, StoreOf(net, n)[i]);
    }
    forall put | put in net'.wire ensures GoodPut(net', put) {
      assert GoodPut(net, put);
    }
  }

  /** The invariant holds in every reachable state. */
  lemma {:induction false} RunsKeepInv(steps: seq<Step>)
    requires IsRun(steps)
    ensures Inv(RunFrom(steps))
  {
    if steps != [] {
      var init := steps[..|steps| - 1];
      RunsKeepInv(init);
      var net := RunFrom(init);
      match steps[|steps| - 1]
      case Publish(node, id, direct, peers, maxHop) =>
        var net' := net.(published := net.published + {(node, id)});
        PublishedGrows(net, (node, id));
        assert StoreOf(net', node) == StoreOf(net, node);
        ApplyKeeps(net', node, id, 0, node, direct, peers, maxHop);
      case Receive(put, peers, maxHop) => IngestKeeps(net, put, peers, maxHop);
      case Lose(node, id) => LoseKeeps(net, node, id);
    }
  }

  // ---------------------------------------------------------------- what follows

  /** No put ever carries hop 2 or more; a copy off the publishers has hop 1 or 2, one more than the hop its sender
      put on the wire, and the tier of that hop; and it lies within two hops of a publisher. */
  lemma {:induction false} CopiesStayNear(steps: seq<Step>, node: Node, id: MsgId)
    requires IsRun(steps) && id in StoreOf(RunFrom(steps), node)
    ensures var net := RunFrom(steps);
      var c := StoreOf(net, node)[id];
      && (forall put | put in net.wire :: 0 <= put.hop <= 1)
      && c.tier == TierFromHop(c.hop) && 0 <= c.hop <= 2
      && ((node, id) !in net.published ==> c.hop >= 1)
      && (c.hop >= 1 ==> Put(c.from, node, id, c.hop - 1) in net.wire)
      && (c.hop == 0 ==> (node, id) in net.published)
      && (c.hop == 1 ==> (c.from, id) in net.published)
      && (c.hop == 2 ==> exists p: Node :: Put(p, c.from, id, 0) in net.wire && (p, id) in net.published)
  {
    RunsKeepInv(steps);
    var net := RunFrom(steps);
    var c := StoreOf(net, node)[id];
    assert GoodCopy(net, node, id, c);
    assert forall put | put in net.wire :: GoodPut(net, put);
    if c.hop >= 1 {
      assert GoodPut(net, Put(c.from, node, id, c.hop - 1));
    }
    if c.hop == 2 {
      var q :| q in net.wire && q.to == c.from && q.id == id && q.hop == 0;
      assert GoodPut(net, q) && q == Put(q.from, c.from, id, 0);
    }
  }

  /** A node relays an id at most once for each time it has lost its copy, and once more: at most once when
      nothing is lost. */
  lemma {:induction false} RelayedOncePerCopy(steps: seq<Step>, node: Node, id: MsgId)
    requires IsRun(steps)
    ensures Count(RunFrom(steps).relays, (node, id)) <= Count(RunFrom(steps).losses, (node, id)) + 1
    ensures RunFrom(steps).losses == [] ==> Count(RunFrom(steps).relays, (node, id)) <= 1
  {
    RunsKeepInv(steps);
    assert RelaysAccounted(RunFrom(steps), node, id);
  }
}
