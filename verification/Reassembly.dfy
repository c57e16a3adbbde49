/** The reassembler of `Frame.kt`: mutable partial messages, and the pure function each call amounts to. */
module Reassembly {
  import opened Numbers
  import opened Seqs
  import opened Frames

  // ---------------------------------------------------------------- specification

  /** One partial message: its slots in order, and when it was last touched. */
  datatype Slots = Slots(chunks: seq<Option<Bytes>>, lastSeenAt: int)

  type State = map<Bytes, Slots>

  datatype Limits = Limits(maxMessageBytes: int, maxPartials: int, partialTimeoutMs: int)

  datatype Fault = FrameTooShort | BadSequence | TooManyPartials | NegativeTotal | NegativeSlot
    | TotalMismatch | MessageTooLarge

  datatype Outcome = Pending | Message(bytes: Bytes) | Failed(fault: Fault)

  function Empty(n: nat): seq<Option<Bytes>> {
    seq(n, _ => None)
  }

  function Missing(c: seq<Option<Bytes>>): nat {
    if c == [] then 0 else Missing(c[..|c| - 1]) + (if c[|c| - 1].None? then 1 else 0)
  }

  function Stored(c: seq<Option<Bytes>>): nat {
    if c == [] then 0 else Stored(c[..|c| - 1]) + (if c[|c| - 1].None? then 0 else |c[|c| - 1].value|)
  }

  /** `concatChunks`: missing chunks are skipped. */
  function Joined(c: seq<Option<Bytes>>): Bytes {
    if c == [] then [] else Joined(c[..|c| - 1]) + (if c[|c| - 1].None? then [] else c[|c| - 1].value)
  }

  /** What pushing a frame does to the partial messages, and what it returns or throws. */
  function PushSpec(s: State, limits: Limits, frame: Bytes, now: int): (State, Outcome) {
    match DecodeFrame(frame)
    case TooShort => (s, Failed(FrameTooShort))
    case InvalidSequence => (s, Failed(BadSequence))
    case Parsed(d) =>
      if d.frameId in s then PushIntoSpec(s, limits, d, now)
      else if |s| >= limits.maxPartials then (s, Failed(TooManyPartials))
      else if d.total < 0 then (s, Failed(NegativeTotal))
      else PushIntoSpec(s[d.frameId := Slots(Empty(d.total), now)], limits, d, now)
  }

  function PushIntoSpec(s: State, limits: Limits, d: Decoded, now: int): (State, Outcome)
    requires d.frameId in s && d.seqNo < d.total
  {
    var chunks := s[d.frameId].chunks;
    if |chunks| != d.total then (s - {d.frameId}, Failed(TotalMismatch))
    else if d.seqNo < 0 then (s[d.frameId := Slots(chunks, now)], Failed(NegativeSlot))
    else
      var filled := if chunks[d.seqNo].None? then chunks[d.seqNo := Some(d.chunk)] else chunks;
      SettleSpec(s[d.frameId := Slots(filled, now)], limits, d.frameId, chunks[d.seqNo].None?)
  }

  function SettleSpec(s: State, limits: Limits, id: Bytes, stored: bool): (State, Outcome)
    requires id in s
  {
    var chunks := s[id].chunks;
    if stored && Stored(chunks) > limits.maxMessageBytes then (s - {id}, Failed(MessageTooLarge))
    else if Missing(chunks) == 0 then (s - {id}, Message(Joined(chunks)))
    else (s, Pending)
  }

  /** A frame that disagrees with its message on the number of frames, or brings it past the size limit, ends it, as one
      that completes it does; one with a negative number is refused and only touches it. */
  ghost predicate EndsOrTouches(s: State, d: Decoded, agrees: bool, now: int, s': State, r: Outcome) {
    && r != Failed(FrameTooShort) && r != Failed(BadSequence)
    && r != Failed(TooManyPartials) && r != Failed(NegativeTotal)
    && (r == Failed(TotalMismatch) <==> !agrees)
    && (r == Failed(NegativeSlot) <==> agrees && d.seqNo < 0)
    && s' - {d.frameId} == s - {d.frameId}
    && (r.Pending? || r == Failed(NegativeSlot) <==> d.frameId in s')
    && (d.frameId in s' ==> s'[d.frameId].lastSeenAt == now)
  }

  lemma {:induction false} PushIntoRefusals(s: State, limits: Limits, d: Decoded, now: int)
    requires d.frameId in s && d.seqNo < d.total
    ensures var r := PushIntoSpec(s, limits, d, now);
      EndsOrTouches(s, d, |s[d.frameId].chunks| == d.total, now, r.0, r.1)
  {
  }

  /** A frame that does not decode changes nothing, nor does one that would open one message too many or a message with
      a negative number of frames. */
  lemma {:induction false} Refusals(s: State, limits: Limits, frame: Bytes, now: int)
    ensures var r := PushSpec(s, limits, frame, now);
      match DecodeFrame(frame)
      case TooShort => r == (s, Failed(FrameTooShort))
      case InvalidSequence => r == (s, Failed(BadSequence))
      case Parsed(d) =>
        if d.frameId !in s && |s| >= limits.maxPartials then r == (s, Failed(TooManyPartials))
        else if d.frameId !in s && d.total < 0 then r == (s, Failed(NegativeTotal))
        else EndsOrTouches(s, d, d.frameId !in s || |s[d.frameId].chunks| == d.total, now, r.0, r.1)
  {
    if DecodeFrame(frame).Parsed? {
      var d := DecodeFrame(frame).frame;
      if d.frameId in s {
        PushIntoRefusals(s, limits, d, now);
      } else if d.total >= 0 {
        var s' := s[d.frameId := Slots(Empty(d.total), now)];
        PushIntoRefusals(s', limits, d, now);
        assert s' - {d.frameId} == s - {d.frameId};
      }
    }
  }

  function Expired(s: State, limits: Limits, now: int): set<Bytes> {
    set id | id in s && now - s[id].lastSeenAt > limits.partialTimeoutMs
  }

  /** A prune in progress: `todo` is still to be looked at, `expired` lists what has been dropped. */
  ghost predicate Pruning(before: State, late: set<Bytes>, s: State, todo: set<Bytes>, expired: seq<Bytes>) {
    && s == before - Elems(expired) && Elems(expired) !! todo && todo <= before.Keys
    && Elems(expired) <= late <= Elems(expired) + todo && NoDup(expired)
  }

  lemma {:induction false} PruneStep(before: State, late: set<Bytes>, s: State, todo: set<Bytes>,
        expired: seq<Bytes>, id: Bytes)
    requires Pruning(before, late, s, todo, expired) && id in todo
    ensures id in s && s[id] == before[id]
    ensures id in late ==> Pruning(before, late, s - {id}, todo - {id}, expired + [id])
    ensures id !in late ==> Pruning(before, late, s, todo - {id}, expired)
  {
    ElemsAppend(expired, [id]);
    assert id !in Elems(expired);
    assert before - (Elems(expired) + {id}) == before - Elems(expired) - {id};
  }

  // ---------------------------------------------------------------- slots

  lemma {:induction false} EmptyCounts(n: nat)
    ensures Missing(Empty(n)) == n && Stored(Empty(n)) == 0
  {
    if n > 0 {
      assert Empty(n)[..n - 1] == Empty(n - 1);
      EmptyCounts(n - 1);
    }
  }

  lemma {:induction false} FillCounts(c: seq<Option<Bytes>>, i: nat, chunk: Bytes)
    requires i < |c| && c[i].None?
    ensures Missing(c[i := Some(chunk)]) == Missing(c) - 1
    ensures Stored(c[i := Some(chunk)]) == Stored(c) + |chunk|
  {
    var k := |c| - 1;
    var d := c[i := Some(chunk)];
    if i == k {
      assert d[..k] == c[..k];
    } else {
      FillCounts(c[..k], i, chunk);
      assert d[..k] == c[..k][i := Some(chunk)];
    }
  }

  // ---------------------------------------------------------------- the mutable objects

  class Partial {
    const total: int
    const chunks: array<Option<Bytes>>
    var remaining: int
    var bytes: int
    var lastSeenAt: int

    /** The counters agree with the slots. */
    ghost predicate Valid()
      reads this, chunks
    {
      chunks.Length == total && remaining == Missing(chunks[..]) && bytes == Stored(chunks[..])
    }

    ghost function View(): Slots
      reads this, chunks
    {
      Slots(chunks[..], lastSeenAt)
    }

    constructor (total: nat, now: int)
      ensures Valid() && fresh(chunks) && View() == Slots(Empty(total), now)
    {
      this.total := total;
      var slots := new Option<Bytes>[total](_ => None);
      chunks := slots;
      remaining, bytes, lastSeenAt := total, 0, now;
      new;
      EmptyCounts(total);
      assert chunks[..] == Empty(total);
    }

    method Touch(now: int)
      requires Valid()
      modifies this`lastSeenAt
      ensures Valid() && View() == Slots(old(chunks[..]), now)
    {
      lastSeenAt := now;
    }

    /** Fills an empty slot; a repeated frame changes nothing but the time stamp. */
    method Receive(seqNo: nat, chunk: Bytes, now: int) returns (stored: bool)
      requires Valid() && seqNo < total
      modifies this, chunks
      ensures Valid()
      ensures stored == old(chunks[seqNo]).None?
      ensures View() == Slots(if stored then old(chunks[..])[seqNo := Some(chunk)] else old(chunks[..]), now)
    {
      lastSeenAt := now;
      stored := chunks[seqNo].None?;
      if stored {
        FillCounts(chunks[..], seqNo, chunk);
        ghost var before := chunks[..];
        chunks[seqNo] := Some(chunk);
        assert chunks[..] == before[seqNo := Some(chunk)];
        remaining := remaining - 1;
        bytes := bytes + |chunk|;
      }
    }

    method Concatenate() returns (out: Bytes)
      ensures out == Joined(chunks[..])
    {
      out := [];
      for i := 0 to chunks.Length
        invariant out == Joined(chunks[..i])
      {
        assert chunks[..i + 1][..i] == chunks[..i];
        if chunks[i].Some? {
          out := out + chunks[i].value;
        }
      }
      assert chunks[..chunks.Length] == chunks[..];
    }
  }

  // ---------------------------------------------------------------- a table of partials, in one heap

  type Table = map<Bytes, Partial>

  ghost function ObjectsOf(t: Table): set<object> {
    (set id | id in t :: t[id] as object) + (set id | id in t :: t[id].chunks as object)
  }

  /** Every partial is consistent, and no two share any state. */
  ghost predicate ValidTable(t: Table)
    reads ObjectsOf(t)
  {
    && (forall id | id in t :: t[id].Valid())
    && (forall a, b | a in t && b in t && a != b :: t[a] != t[b] && t[a].chunks != t[b].chunks)
  }

  ghost function ViewOf(t: Table): State
    reads ObjectsOf(t)
  {
    map id | id in t :: t[id].View()
  }

  lemma {:induction false} NotInTable(t: Table, p: Partial, id: Bytes)
    requires id in t && p !in ObjectsOf(t) && p.chunks !in ObjectsOf(t)
    ensures t[id] != p && t[id].chunks != p.chunks
  {
    assert t[id] in ObjectsOf(t) && t[id].chunks in ObjectsOf(t);
  }

  lemma {:induction false} AddedToTable(t: Table, id: Bytes, p: Partial)
    requires ValidTable(t) && id !in t && p.Valid() && p !in ObjectsOf(t) && p.chunks !in ObjectsOf(t)
    ensures ValidTable(t[id := p]) && ViewOf(t[id := p]) == ViewOf(t)[id := p.View()]
    ensures ObjectsOf(t[id := p]) <= ObjectsOf(t) + {p, p.chunks}
  {
    var u := t[id := p];
    forall a | a in t ensures t[a] != p && t[a].chunks != p.chunks {
      NotInTable(t, p, a);
    }
  }

  lemma {:induction false} RemovedFromTable(t: Table, id: Bytes)
    requires ValidTable(t)
    ensures ValidTable(t - {id}) && ViewOf(t - {id}) == ViewOf(t) - {id} && ObjectsOf(t - {id}) <= ObjectsOf(t)
  {
  }

  /** Only the partial under `id` changed; what it became decides the new view. */
  twostate lemma ChangedInTable(t: Table, new id: Bytes)
    requires id in t && old(ValidTable(t)) && t[id].Valid()
    requires forall k | k in t && k != id :: unchanged(t[k]) && unchanged(t[k].chunks)
    ensures ValidTable(t) && ViewOf(t) == old(ViewOf(t))[id := t[id].View()]
  {
  }

  class Reassembler {
    const limits: Limits
    var partials: Table

    ghost function Objects(): set<object>
      reads this
    {
      ObjectsOf(partials)
    }

    ghost predicate Valid()
      reads this, Objects()
    {
      ValidTable(partials)
    }

    ghost function View(): State
      reads this, Objects()
    {
      ViewOf(partials)
    }

    constructor (maxMessageBytes: Option<int>, maxPartials: Option<int>, partialTimeoutMs: Option<int>)
      ensures Valid() && View() == map[]
      ensures maxMessageBytes.None? ==> limits.maxMessageBytes == 8 * 1024 * 1024
      ensures maxPartials.None? ==> limits.maxPartials == 32
      ensures partialTimeoutMs.None? ==> limits.partialTimeoutMs == 30_000
      ensures maxMessageBytes.Some? ==> limits.maxMessageBytes == Max(1024, maxMessageBytes.value)
      ensures maxPartials.Some? ==> limits.maxPartials == Max(1, maxPartials.value)
      ensures partialTimeoutMs.Some? ==> limits.partialTimeoutMs == Max(1000, partialTimeoutMs.value)
    {
      limits := Limits(
        Max(1024, if maxMessageBytes.Some? then maxMessageBytes.value else DEFAULT_MAX_MESSAGE_BYTES),
        Max(1, if maxPartials.Some? then maxPartials.value else 32),
        Max(1000, if partialTimeoutMs.Some? then partialTimeoutMs.value else 30000));
      partials := map[];
    }

    /** `partials.remove(id)`. */
    method Remove(id: Bytes)
      requires Valid()
      modifies this`partials
      ensures Valid() && partials == old(partials) - {id} && Objects() <= old(Objects())
      ensures View() == old(View()) - {id}
    {
      RemovedFromTable(partials, id);
      partials := partials - {id};
    }

    method Create(id: Bytes, total: nat, now: int)
      requires Valid() && id !in partials
      modifies this`partials
      ensures Valid() && id in partials && fresh(Objects() - old(Objects()))
      ensures View() == old(View())[id := Slots(Empty(total), now)]
    {
      ghost var objects, view, before := Objects(), View(), partials;
      var p := new Partial(total, now);
      assert ViewOf(before) == view && ValidTable(before);
      AddedToTable(before, id, p);
      partials := partials[id := p];
      assert Objects() <= objects + {p, p.chunks};
      assert View() == view[id := Slots(Empty(total), now)];
    }

    method Touch(id: Bytes, now: int)
      requires Valid() && id in partials
      modifies Objects()
      ensures partials == old(partials) && Valid()
      ensures var chunks := old(View())[id].chunks;
        View() == old(View())[id := Slots(chunks, now)]
    {
      partials[id].Touch(now);
      ChangedInTable(partials, id);
    }

    method Receive(id: Bytes, seqNo: nat, chunk: Bytes, now: int) returns (stored: bool)
      requires Valid() && id in partials && seqNo < partials[id].total
      modifies Objects()
      ensures partials == old(partials) && Valid()
      ensures var chunks := old(View())[id].chunks;
        && stored == chunks[seqNo].None?
        && View() == old(View())[id := Slots(if stored then chunks[seqNo := Some(chunk)] else chunks, now)]
    {
      stored := partials[id].Receive(seqNo, chunk, now);
      ChangedInTable(partials, id);
    }

    /** `push`: the new partials and the result are exactly those of `PushSpec`. */
    method Push(frame: Bytes, now: int) returns (r: Outcome)
      requires Valid()
      modifies this, Objects()
      ensures Valid() && fresh(Objects() - old(Objects()))
      ensures (View(), r) == PushSpec(old(View()), limits, frame, now)
    {
      var parsed := DecodeFrame(frame);
      if parsed.TooShort? {
        return Failed(FrameTooShort);
      }
      if parsed.InvalidSequence? {
        return Failed(BadSequence);
      }
      var d := parsed.frame;
      assert |partials| == |View()| by {
        assert partials.Keys == View().Keys;
      }
      if d.frameId !in partials {
        if |partials| >= limits.maxPartials {
          return Failed(TooManyPartials);
        }
        if d.total < 0 {
          return Failed(NegativeTotal);
        }
        Create(d.frameId, d.total, now);
      }
      r := PushInto(d, now);
    }

    /** The rest of `push`, once the frame's partial is at hand. */
    method PushInto(d: Decoded, now: int) returns (r: Outcome)
      requires Valid() && d.frameId in partials && d.seqNo < d.total
      modifies this, Objects()
      ensures Valid() && Objects() <= old(Objects())
      ensures (View(), r) == PushIntoSpec(old(View()), limits, d, now)
    {
      var id := d.frameId;
      if partials[id].total != d.total {
        Remove(id);
        return Failed(TotalMismatch);
      }
      if d.seqNo < 0 {
        Touch(id, now);
        return Failed(NegativeSlot);
      }
      var stored := Receive(id, d.seqNo, d.chunk, now);
      r := Settle(id, stored);
    }

    /** After a chunk has been taken: over the limit, complete, or still waiting. */
    method Settle(id: Bytes, stored: bool) returns (r: Outcome)
      requires Valid() && id in partials
      modifies this`partials
      ensures Valid() && Objects() <= old(Objects())
      ensures (View(), r) == SettleSpec(old(View()), limits, id, stored)
    {
      var p := partials[id];
      assert p.Valid() && p.View() == View()[id];
      if stored && p.bytes > limits.maxMessageBytes {
        Remove(id);
        return Failed(MessageTooLarge);
      }
      if p.remaining == 0 {
        var out := p.Concatenate();
        Remove(id);
        return Message(out);
      }
      r := Pending;
    }

    method DropIfExpired(id: Bytes, now: int) returns (gone: bool)
      requires Valid() && id in partials
      modifies this`partials
      ensures Valid() && Objects() <= old(Objects())
      ensures gone == (now - old(View())[id].lastSeenAt > limits.partialTimeoutMs)
      ensures partials == (if gone then old(partials) - {id} else old(partials))
      ensures View() == (if gone then old(View()) - {id} else old(View()))
    {
      assert View()[id] == partials[id].View();
      gone := now - partials[id].lastSeenAt > limits.partialTimeoutMs;
      if gone {
        Remove(id);
      }
    }

    /** `prune`: drops the partials not touched within the timeout and reports their ids. */
    method Prune(now: int) returns (expired: seq<Bytes>)
      requires Valid()
      modifies this`partials
      ensures Valid() && Objects() <= old(Objects())
      ensures NoDup(expired) && Elems(expired) == Expired(old(View()), limits, now)
      ensures View() == old(View()) - Expired(old(View()), limits, now)
    {
      expired := [];
      var todo := partials.Keys;
      ghost var before, late := View(), Expired(View(), limits, now);
      assert Pruning(before, late, before, todo, expired) by {
        assert before - {} == before;
      }
      while todo != {}
        invariant Valid() && Objects() <= old(Objects())
        invariant Pruning(before, late, View(), todo, expired)
        decreases todo
      {
        var id :| id in todo;
        PruneStep(before, late, View(), todo, expired, id);
        var gone := DropIfExpired(id, now);
        if gone {
          expired := expired + [id];
        }
        todo := todo - {id};
      }
    }
  }
}
