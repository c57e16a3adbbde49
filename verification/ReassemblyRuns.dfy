/** Runs of the reassembler under any delivery: reordered, duplicated, interleaved, with timeouts in between. */
module ReassemblyRuns {
  import opened Seqs
  import opened Frames
  import opened Reassembly

  /** The messages in flight, as the chunks their senders cut them into. */
  type Messages = map<Bytes, seq<Bytes>>

  /** What is known about an open message: which frames have arrived, and when the last one did. */
  datatype Progress = Progress(have: set<nat>, lastSeenAt: int)

  type Open = map<Bytes, Progress>

  datatype Input = Deliver(id: Bytes, index: nat, now: int) | PruneAt(now: int)

  /** Ids and frame counts that a header can carry; messages may be of any length. */
  ghost predicate Sound(m: Messages) {
    forall id | id in m :: |id| == FRAME_ID_BYTES && 0 < |m[id]| <= MAX_INT
  }

  /** How many bytes of a message have arrived. */
  function Size(chunks: seq<Bytes>, have: set<nat>): nat {
    if chunks == [] then 0
    else
      var k := |chunks| - 1;
      Size(chunks[..k], have) + (if k in have then |chunks[k]| else 0)
  }

  ghost predicate Honest(m: Messages, input: Input) {
    input.Deliver? ==> input.id in m && input.index < |m[input.id]|
  }

  /** All of the frames 0 to n - 1 are there. */
  ghost predicate Covers(have: set<nat>, n: nat) {
    forall i: nat | i < n :: i in have
  }

  /** What should happen: a message comes out exactly when its last missing frame arrives, and it is the original. A
      frame that would open one message too many is refused and changes nothing; one with which more bytes have arrived
      than a message may have is refused, and what had arrived is forgotten. */
  ghost function Expected(m: Messages, limits: Limits, open: Open, input: Input): (Open, Outcome)
    requires Honest(m, input)
  {
    match input
    case PruneAt(now) =>
      (map id | id in open && !(now - open[id].lastSeenAt > limits.partialTimeoutMs) :: open[id], Pending)
    case Deliver(id, index, now) =>
      if id !in open && |open| >= limits.maxPartials then (open, Failed(TooManyPartials))
      else
        var had := if id in open then open[id].have else {};
        var have := had + {index};
        if index !in had && Size(m[id], have) > limits.maxMessageBytes then (open - {id}, Failed(MessageTooLarge))
        else if Covers(have, |m[id]|) then (open - {id}, Message(Concat(m[id])))
        else (open[id := Progress(have, now)], Pending)
  }

  /** What the reassembler does with the same input. */
  ghost function Actual(m: Messages, limits: Limits, s: State, input: Input): (State, Outcome)
    requires Sound(m) && Honest(m, input)
  {
    match input
    case PruneAt(now) => (s - Expired(s, limits, now), Pending)
    case Deliver(id, index, now) => PushSpec(s, limits, FrameOf(id, index, |m[id]|, m[id][index]), now)
  }

  /** The slots hold exactly the chunks that have arrived. */
  ghost predicate Holds(c: seq<Option<Bytes>>, chunks: seq<Bytes>, have: set<nat>) {
    && |c| == |chunks|
    && (forall i | i in have :: i < |chunks|)
    && (forall i: nat | i < |c| :: c[i] == if i in have then Some(chunks[i]) else None)
  }

  ghost predicate Tracks(m: Messages, s: State, open: Open) {
    && s.Keys == open.Keys
    && (forall id | id in s ::
      id in m && Holds(s[id].chunks, m[id], open[id].have) && s[id].lastSeenAt == open[id].lastSeenAt)
  }

  // ---------------------------------------------------------------- slots and counters

  lemma {:induction false} MissingZero(c: seq<Option<Bytes>>, chunks: seq<Bytes>, have: set<nat>)
    requires Holds(c, chunks, have)
    ensures Missing(c) == 0 <==> Covers(have, |chunks|)
  {
    MissingNone(c);
    if Missing(c) == 0 {
      forall i: nat | i < |chunks| ensures i in have {
        assert c[i].Some?;
      }
    }
  }

  lemma {:induction false} MissingNone(c: seq<Option<Bytes>>)
    ensures Missing(c) == 0 <==> forall i | 0 <= i < |c| :: c[i].Some?
  {
    if c != [] {
      var k := |c| - 1;
      MissingNone(c[..k]);
      assert forall i | 0 <= i < k :: c[..k][i] == c[i];
    }
  }

  lemma {:induction false} JoinedAll(c: seq<Option<Bytes>>, chunks: seq<Bytes>)
    requires |c| == |chunks| && forall i | 0 <= i < |c| :: c[i] == Some(chunks[i])
    ensures Joined(c) == Concat(chunks)
  {
    if c != [] {
      JoinedAll(c[..|c| - 1], chunks[..|c| - 1]);
    }
  }

  lemma {:induction false} StoredIsSize(c: seq<Option<Bytes>>, chunks: seq<Bytes>, have: set<nat>)
    requires |c| == |chunks| && forall i: nat | i < |c| :: c[i] == if i in have then Some(chunks[i]) else None
    ensures Stored(c) == Size(chunks, have)
  {
    if c != [] {
      StoredIsSize(c[..|c| - 1], chunks[..|c| - 1], have);
    }
  }

  lemma {:induction false} SizeBound(chunks: seq<Bytes>, have: set<nat>)
    ensures Size(chunks, have) <= |Concat(chunks)|
    ensures Covers(have, |chunks|) ==> Size(chunks, have) == |Concat(chunks)|
  {
    if chunks != [] {
      SizeBound(chunks[..|chunks| - 1], have);
    }
  }

  lemma {:induction false} EmptyHolds(chunks: seq<Bytes>)
    ensures Holds(Empty(|chunks|), chunks, {})
  {
  }

  /** Receiving frame `i`, whether new or repeated, leaves the slots holding what has arrived. */
  lemma {:induction false} ReceiveHolds(c: seq<Option<Bytes>>, chunks: seq<Bytes>, have: set<nat>, i: nat)
    requires Holds(c, chunks, have) && i < |chunks|
    ensures Holds(if c[i].None? then c[i := Some(chunks[i])] else c, chunks, have + {i})
  {
  }

  // ---------------------------------------------------------------- one step

  lemma {:induction false} TracksWithout(m: Messages, s: State, open: Open, id: Bytes)
    requires Tracks(m, s, open)
    ensures Tracks(m, s - {id}, open - {id})
  {
  }

  lemma {:induction false} TracksWith(m: Messages, s: State, open: Open, id: Bytes, c: seq<Option<Bytes>>,
        have: set<nat>, now: int)
    requires Tracks(m, s, open) && id in m && Holds(c, m[id], have)
    ensures Tracks(m, s[id := Slots(c, now)], open[id := Progress(have, now)])
  {
  }

  function Filled(c: seq<Option<Bytes>>, i: nat, chunk: Bytes): seq<Option<Bytes>>
    requires i < |c|
  {
    if c[i].None? then c[i := Some(chunk)] else c
  }

  /** The outcome of a chunk, given what has arrived with it and whether it was new. */
  ghost function Settled(limits: Limits, s: State, id: Bytes, chunks: seq<Bytes>, have: set<nat>,
        stored: bool): (State, Outcome)
  {
    if stored && Size(chunks, have) > limits.maxMessageBytes then (s - {id}, Failed(MessageTooLarge))
    else if Covers(have, |chunks|) then (s - {id}, Message(Concat(chunks)))
    else (s, Pending)
  }

  /** Once the slots hold `have`, the message is too large exactly when that many bytes have arrived, and complete
      exactly when `have` covers it, and joins to the original. */
  lemma {:induction false} SettleStep(limits: Limits, s: State, id: Bytes, chunks: seq<Bytes>, have: set<nat>,
        stored: bool)
    requires id in s && Holds(s[id].chunks, chunks, have)
    ensures SettleSpec(s, limits, id, stored) == Settled(limits, s, id, chunks, have, stored)
  {
    var c := s[id].chunks;
    MissingZero(c, chunks, have);
    StoredIsSize(c, chunks, have);
    if Covers(have, |chunks|) {
      JoinedAll(c, chunks);
    }
  }

  /** One delivery into a message of which `have` has arrived. */
  lemma {:induction false} ReceiveStep(limits: Limits, s: State, id: Bytes, chunks: seq<Bytes>, have: set<nat>,
        index: nat, now: int)
    requires id in s && Holds(s[id].chunks, chunks, have) && index < |chunks|
    ensures var filled := Filled(s[id].chunks, index, chunks[index]);
      && Holds(filled, chunks, have + {index})
      && PushIntoSpec(s, limits, Decoded(id, index, |chunks|, chunks[index]), now)
        == Settled(limits, s[id := Slots(filled, now)], id, chunks, have + {index}, index !in have)
  {
    var filled := Filled(s[id].chunks, index, chunks[index]);
    ReceiveHolds(s[id].chunks, chunks, have, index);
    SettleStep(limits, s[id := Slots(filled, now)], id, chunks, have + {index}, s[id].chunks[index].None?);
  }

  lemma {:induction false} PruneTracks(m: Messages, limits: Limits, s: State, open: Open, now: int)
    requires Tracks(m, s, open)
    ensures Tracks(m, s - Expired(s, limits, now),
      map id | id in open && !(now - open[id].lastSeenAt > limits.partialTimeoutMs) :: open[id])
  {
  }

  /** If the slots hold what has arrived, the outcome is the expected one. */
  lemma {:induction false} SettledTracks(m: Messages, limits: Limits, s: State, open: Open, id: Bytes,
        filled: seq<Option<Bytes>>, have: set<nat>, now: int, stored: bool)
    requires Tracks(m, s, open) && id in m && Holds(filled, m[id], have)
    ensures var r := Settled(limits, s[id := Slots(filled, now)], id, m[id], have, stored);
      Tracks(m, r.0, if r.1.Pending? then open[id := Progress(have, now)] else open - {id})
  {
    assert s[id := Slots(filled, now)] - {id} == s - {id};
    TracksWithout(m, s, open, id);
    TracksWith(m, s, open, id, filled, have, now);
  }

  /** A frame that is not refused is expected to do what its chunk, once in its slot, settles. */
  lemma {:induction false} ExpectedSettles(m: Messages, limits: Limits, s: State, open: Open, id: Bytes, index: nat,
        now: int)
    requires id in m && index < |m[id]| && (id in open || |open| < limits.maxPartials)
    ensures var had := if id in open then open[id].have else {};
      var r := Settled(limits, s, id, m[id], had + {index}, index !in had);
      Expected(m, limits, open, Deliver(id, index, now))
        == (if r.1.Pending? then open[id := Progress(had + {index}, now)] else open - {id}, r.1)
  {
  }

  lemma {:induction false} ActualPush(m: Messages, limits: Limits, s: State, id: Bytes, index: nat, now: int)
    requires Sound(m) && id in m && index < |m[id]|
    ensures var d := Decoded(id, index, |m[id]|, m[id][index]);
      Actual(m, limits, s, Deliver(id, index, now))
        == if id in s then PushIntoSpec(s, limits, d, now)
        else if |s| >= limits.maxPartials then (s, Failed(TooManyPartials))
        else PushIntoSpec(s[id := Slots(Empty(|m[id]|), now)], limits, d, now)
  {
    FrameRoundTrip(id, index, |m[id]|, m[id][index]);
  }

  /** A delivery into an open message. */
  lemma {:induction false} DeliverOpen(m: Messages, limits: Limits, s: State, open: Open, id: Bytes, index: nat,
        now: int)
    requires Sound(m) && Tracks(m, s, open) && id in s && index < |m[id]|
    ensures Actual(m, limits, s, Deliver(id, index, now)).1 == Expected(m, limits, open, Deliver(id, index, now)).1
    ensures
      Tracks(m, Actual(m, limits, s, Deliver(id, index, now)).0, Expected(m, limits, open, Deliver(id, index, now)).0)
  {
    var had, filled := open[id].have, Filled(s[id].chunks, index, m[id][index]);
    ActualPush(m, limits, s, id, index, now);
    ReceiveStep(limits, s, id, m[id], had, index, now);
    SettledTracks(m, limits, s, open, id, filled, had + {index}, now, index !in had);
    ExpectedSettles(m, limits, s[id := Slots(filled, now)], open, id, index, now);
  }

  /** One delivery of a frame whose message is not open yet. */
  lemma {:induction false} ReceiveFirst(limits: Limits, s: State, id: Bytes, chunks: seq<Bytes>, index: nat, now: int)
    requires id !in s && index < |chunks|
    ensures var filled := Filled(Empty(|chunks|), index, chunks[index]);
      && Holds(filled, chunks, {index})
      && PushIntoSpec(s[id := Slots(Empty(|chunks|), now)], limits, Decoded(id, index, |chunks|, chunks[index]), now)
        == Settled(limits, s[id := Slots(filled, now)], id, chunks, {index}, true)
  {
    var s' := s[id := Slots(Empty(|chunks|), now)];
    EmptyHolds(chunks);
    ReceiveStep(limits, s', id, chunks, {}, index, now);
    JustOne(index);
    var filled := Filled(Empty(|chunks|), index, chunks[index]);
    assert s'[id := Slots(filled, now)] == s[id := Slots(filled, now)];
  }

  lemma {:induction false} SameSize(s: State, open: Open)
    requires s.Keys == open.Keys
    ensures |s| == |open|
  {
    assert |s| == |s.Keys| && |open| == |open.Keys|;
  }

  lemma {:induction false} JustOne(index: nat)
    ensures {} + {index} == {index}
  {
  }

  /** A delivery that opens a message, or is refused because too many are open. */
  lemma {:induction false} DeliverNew(m: Messages, limits: Limits, s: State, open: Open, id: Bytes, index: nat,
        now: int)
    requires Sound(m) && Tracks(m, s, open) && id in m && id !in s && index < |m[id]|
    ensures Actual(m, limits, s, Deliver(id, index, now)).1 == Expected(m, limits, open, Deliver(id, index, now)).1
    ensures
      Tracks(m, Actual(m, limits, s, Deliver(id, index, now)).0, Expected(m, limits, open, Deliver(id, index, now)).0)
  {
    SameSize(s, open);
    ActualPush(m, limits, s, id, index, now);
    if |s| < limits.maxPartials {
      OpensMessage(m, limits, s, open, id, index, now);
    }
  }

  lemma {:induction false} OpensMessage(m: Messages, limits: Limits, s: State, open: Open, id: Bytes, index: nat,
        now: int)
    requires Tracks(m, s, open) && id in m && id !in s && index < |m[id]| && |open| < limits.maxPartials
    ensures var d := Decoded(id, index, |m[id]|, m[id][index]);
      var actual := PushIntoSpec(s[id := Slots(Empty(|m[id]|), now)], limits, d, now);
      var expected := Expected(m, limits, open, Deliver(id, index, now));
      actual.1 == expected.1 && Tracks(m, actual.0, expected.0)
  {
    var filled := Filled(Empty(|m[id]|), index, m[id][index]);
    ReceiveFirst(limits, s, id, m[id], index, now);
    JustOne(index);
    SettledTracks(m, limits, s, open, id, filled, {index}, now, true);
    ExpectedSettles(m, limits, s[id := Slots(filled, now)], open, id, index, now);
  }

  /** Every input has exactly the expected effect and result. */
  lemma {:induction false} StepAsExpected(m: Messages, limits: Limits, s: State, open: Open, input: Input)
    requires Sound(m) && Tracks(m, s, open) && Honest(m, input)
    ensures Actual(m, limits, s, input).1 == Expected(m, limits, open, input).1
    ensures Tracks(m, Actual(m, limits, s, input).0, Expected(m, limits, open, input).0)
  {
    match input
    case PruneAt(now) => PruneTracks(m, limits, s, open, now);
    case Deliver(id, index, now) =>
      if id in s {
        DeliverOpen(m, limits, s, open, id, index, now);
      } else {
        DeliverNew(m, limits, s, open, id, index, now);
      }
  }

  // ---------------------------------------------------------------- whole runs

  ghost predicate HonestRun(m: Messages, run: seq<Input>) {
    forall i | 0 <= i < |run| :: Honest(m, run[i])
  }

  ghost function OpenAfter(m: Messages, limits: Limits, run: seq<Input>): Open
    requires HonestRun(m, run)
  {
    if run == [] then map[]
    else Expected(m, limits, OpenAfter(m, limits, run[..|run| - 1]), run[|run| - 1]).0
  }

  ghost function StateAfter(m: Messages, limits: Limits, run: seq<Input>): State
    requires Sound(m) && HonestRun(m, run)
  {
    if run == [] then map[]
    else Actual(m, limits, StateAfter(m, limits, run[..|run| - 1]), run[|run| - 1]).0
  }

  ghost function LastOutcome(m: Messages, limits: Limits, run: seq<Input>): Outcome
    requires Sound(m) && HonestRun(m, run) && run != []
  {
    Actual(m, limits, StateAfter(m, limits, run[..|run| - 1]), run[|run| - 1]).1
  }

  /** From an empty reassembler, every honest run behaves as expected at every step. */
  lemma {:induction false} RunsAsExpected(m: Messages, limits: Limits, run: seq<Input>)
    requires Sound(m) && HonestRun(m, run)
    ensures Tracks(m, StateAfter(m, limits, run), OpenAfter(m, limits, run))
    ensures run != [] ==>
      LastOutcome(m, limits, run) == Expected(m, limits, OpenAfter(m, limits, run[..|run| - 1]), run[|run| - 1]).1
  {
    if run != [] {
      var init := run[..|run| - 1];
      RunsAsExpected(m, limits, init);
      StepAsExpected(m, limits, StateAfter(m, limits, init), OpenAfter(m, limits, init), run[|run| - 1]);
    }
  }

  /** What is open is incomplete and within the limit. */
  ghost predicate WithinLimit(m: Messages, limits: Limits, open: Open) {
    forall id | id in open ::
      id in m && !Covers(open[id].have, |m[id]|) && Size(m[id], open[id].have) <= limits.maxMessageBytes
  }

  lemma {:induction false} StepWithinLimit(m: Messages, limits: Limits, open: Open, input: Input)
    requires Honest(m, input) && WithinLimit(m, limits, open)
    ensures var r := Expected(m, limits, open, input);
      && WithinLimit(m, limits, r.0)
      && (r.1.Message? ==>
          input.Deliver? && r.1.bytes == Concat(m[input.id]) && |r.1.bytes| <= limits.maxMessageBytes)
  {
    if input.Deliver? {
      var had := if input.id in open then open[input.id].have else {};
      SizeBound(m[input.id], had + {input.index});
      assert input.index in had ==> had + {input.index} == had;
    }
  }

  lemma {:induction false} OpenWithinLimit(m: Messages, limits: Limits, run: seq<Input>)
    requires Sound(m) && HonestRun(m, run)
    ensures WithinLimit(m, limits, OpenAfter(m, limits, run))
  {
    if run != [] {
      OpenWithinLimit(m, limits, run[..|run| - 1]);
      StepWithinLimit(m, limits, OpenAfter(m, limits, run[..|run| - 1]), run[|run| - 1]);
    }
  }

  /** No message longer than the limit ever comes out, and what comes out is one of the messages sent. */
  lemma {:induction false} NothingTooLargeArrives(m: Messages, limits: Limits, run: seq<Input>)
    requires Sound(m) && HonestRun(m, run) && run != [] && LastOutcome(m, limits, run).Message?
    ensures var input, bytes := run[|run| - 1], LastOutcome(m, limits, run).bytes;
      input.Deliver? && bytes == Concat(m[input.id]) && |bytes| <= limits.maxMessageBytes
  {
    var init := run[..|run| - 1];
    RunsAsExpected(m, limits, run);
    OpenWithinLimit(m, limits, init);
    StepWithinLimit(m, limits, OpenAfter(m, limits, init), run[|run| - 1]);
  }

  // ---------------------------------------------------------------- one message, end to end

  /** Frames of one message as they arrive: frame `order[i]` at time `times[i]`. */
  function Deliveries(id: Bytes, order: seq<nat>, times: seq<int>): seq<Input>
    requires |order| == |times|
  {
    if order == [] then []
    else
      var k := |order| - 1;
      Deliveries(id, order[..k], times[..k]) + [Deliver(id, order[k], times[k])]
  }

  ghost predicate IndicesOf(order: seq<nat>, n: nat) {
    forall i | 0 <= i < |order| :: order[i] < n
  }

  lemma {:induction false} DeliveriesInit(id: Bytes, order: seq<nat>, times: seq<int>)
    requires |order| == |times| && order != []
    ensures var k, run := |order| - 1, Deliveries(id, order, times);
      run != [] && run[..|run| - 1] == Deliveries(id, order[..k], times[..k])
      && run[|run| - 1] == Deliver(id, order[k], times[k])
  {
  }

  lemma {:induction false} DeliveriesHonest(m: Messages, id: Bytes, order: seq<nat>, times: seq<int>)
    requires |order| == |times| && id in m && IndicesOf(order, |m[id]|)
    ensures |Deliveries(id, order, times)| == |order| && HonestRun(m, Deliveries(id, order, times))
  {
    if order != [] {
      DeliveriesHonest(m, id, order[..|order| - 1], times[..|order| - 1]);
    }
  }

  lemma {:induction false} SplitLast(order: seq<nat>)
    requires order != []
    ensures Elems(order) == Elems(order[..|order| - 1]) + {order[|order| - 1]}
  {
    assert order == order[..|order| - 1] + [order[|order| - 1]];
  }

  /** The state of knowledge while one message is being delivered, last touched at `seen`. */
  function OnlyOpen(id: Bytes, have: set<nat>, seen: int): Open {
    if have == {} then map[] else map[id := Progress(have, seen)]
  }

  function LastOf(times: seq<int>): int {
    if times == [] then 0 else times[|times| - 1]
  }

  lemma {:induction false} ExpectedAlone(m: Messages, limits: Limits, id: Bytes, have: set<nat>, seen: int, index: nat,
        now: int)
    requires limits.maxPartials >= 1 && id in m && index < |m[id]| && |Concat(m[id])| <= limits.maxMessageBytes
    ensures Expected(m, limits, OnlyOpen(id, have, seen), Deliver(id, index, now))
      == if Covers(have + {index}, |m[id]|) then (map[], Message(Concat(m[id])))
      else (OnlyOpen(id, have + {index}, now), Pending)
  {
    var open := OnlyOpen(id, have, seen);
    SizeBound(m[id], have + {index});
    assert index in have + {index};
    assert (if id in open then open[id].have else {}) == have;
    assert open - {id} == map[];
    assert open[id := Progress(have + {index}, now)] == map[id := Progress(have + {index}, now)];
  }

  lemma {:induction false} Incomplete(m: Messages, limits: Limits, id: Bytes, order: seq<nat>, times: seq<int>)
    requires |order| == |times| && limits.maxPartials >= 1 && id in m && IndicesOf(order, |m[id]|) && 0 < |m[id]|
    requires !Covers(Elems(order), |m[id]|) && |Concat(m[id])| <= limits.maxMessageBytes
    ensures HonestRun(m, Deliveries(id, order, times))
    ensures OpenAfter(m, limits, Deliveries(id, order, times)) == OnlyOpen(id, Elems(order), LastOf(times))
    decreases |order|
  {
    DeliveriesHonest(m, id, order, times);
    if order != [] {
      var k := |order| - 1;
      var init, run := order[..k], Deliveries(id, order, times);
      DeliveriesHonest(m, id, init, times[..k]);
      SplitLast(order);
      Incomplete(m, limits, id, init, times[..k]);
      DeliveriesInit(id, order, times);
      ExpectedAlone(m, limits, id, Elems(init), LastOf(times[..k]), order[k], times[k]);
    }
  }

  /** Deliver the frames of one message in any order and at any times, repeats allowed: the delivery that completes
      the set returns the original bytes, and every delivery before it is `Pending`. */
  lemma {:induction false} AnyOrderReassembles(m: Messages, limits: Limits, id: Bytes, order: seq<nat>, times: seq<int>)
    requires Sound(m) && limits.maxPartials >= 1 && id in m && IndicesOf(order, |m[id]|)
    requires |order| == |times| && order != [] && !Covers(Elems(order[..|order| - 1]), |m[id]|)
    requires |Concat(m[id])| <= limits.maxMessageBytes
    ensures HonestRun(m, Deliveries(id, order, times)) && |Deliveries(id, order, times)| == |order|
    ensures LastOutcome(m, limits, Deliveries(id, order, times))
      == if Covers(Elems(order), |m[id]|) then Message(Concat(m[id])) else Pending
  {
    var k := |order| - 1;
    var init, run := order[..k], Deliveries(id, order, times);
    DeliveriesHonest(m, id, order, times);
    SplitLast(order);
    Incomplete(m, limits, id, init, times[..k]);
    assert run[..|run| - 1] == Deliveries(id, init, times[..k]);
    ExpectedAlone(m, limits, id, Elems(init), LastOf(times[..k]), order[k], times[k]);
    RunsAsExpected(m, limits, run);
  }

  /** From bytes to bytes: the frames `encodeFrames` makes, pushed in any such order, give the message back. */
  lemma {:induction false} EncodedMessageArrives(id: Bytes, body: Bytes, chunk: int, limits: Limits, order: seq<nat>,
        times: seq<int>)
    requires |id| == FRAME_ID_BYTES && 0 < chunk <= DEFAULT_MAX_MESSAGE_BYTES && |body| + chunk - 1 <= MAX_INT
    requires |body| <= limits.maxMessageBytes && limits.maxPartials >= 1 && |order| == |times| && order != []
    requires IndicesOf(order, Total(|body|, chunk)) && !Covers(Elems(order[..|order| - 1]), Total(|body|, chunk))
    requires Covers(Elems(order), Total(|body|, chunk))
    ensures var m := map[id := ChunksOf(body, chunk)];
      && Sound(m) && HonestRun(m, Deliveries(id, order, times)) && Deliveries(id, order, times) != []
      && LastOutcome(m, limits, Deliveries(id, order, times)) == Message(body)
  {
    var m := map[id := ChunksOf(body, chunk)];
    ChunksCarryBodyIff(body, chunk);
    StartInBounds(|body|, chunk, 0);
    AnyOrderReassembles(m, limits, id, order, times);
  }
}
