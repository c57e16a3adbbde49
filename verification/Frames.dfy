/** `encodeFrames` and `decodeFrame` of `Frame.kt`, with the 32-bit arithmetic they use. */
module Frames {
  import opened Numbers

  type Byte = b: int | 0 <= b < 256

  type Bytes = seq<Byte>

  const FRAME_ID_BYTES := 16
  const FRAME_HEADER_BYTES := 24
  const DEFAULT_MAX_FRAME_CHUNK_BYTES := 15 * 1024
  const DEFAULT_MAX_MESSAGE_BYTES := 8 * 1024 * 1024
  const MAX_INT := 0x7fff_ffff

  /** The value a 32-bit signed integer ends up with. */
  function ToInt(x: int): int {
    (x + 0x8000_0000) % 0x1_0000_0000 - 0x8000_0000
  }

  // ---------------------------------------------------------------- headers

  /** `writeUInt32BE` of a non-negative `Int`. */
  function WriteUInt32(v: int): Bytes
    requires 0 <= v <= MAX_INT
  {
    [v / 256 / 256 / 256, v / 256 / 256 % 256, v / 256 % 256, v % 256]
  }

  function BigEndian(a: int, b: int, c: int, d: int): int {
    ((a * 256 + b) * 256 + c) * 256 + d
  }

  /** `readUInt32BE`: assembled from four bytes into a signed `Int`. */
  function ReadUInt32(b: Bytes): int
    requires |b| == 4
  {
    ToInt(BigEndian(b[0], b[1], b[2], b[3]))
  }

  lemma {:induction false} UInt32RoundTrip(v: int)
    requires 0 <= v <= MAX_INT
    ensures ReadUInt32(WriteUInt32(v)) == v
  {
    var w := v / 256;
    var u := w / 256;
    assert BigEndian(u / 256, u % 256, w % 256, v % 256) == v;
  }

  datatype Decoded = Decoded(frameId: Bytes, seqNo: int, total: int, chunk: Bytes)

  datatype DecodeResult = Parsed(frame: Decoded) | TooShort | InvalidSequence

  /** `decodeFrame`; the comparisons are on signed integers, as in the code. */
  function DecodeFrame(frame: Bytes): DecodeResult {
    if |frame| < FRAME_HEADER_BYTES then TooShort
    else
      var seqNo := ReadUInt32(frame[16..20]);
      var total := ReadUInt32(frame[20..24]);
      if total == 0 || seqNo >= total then InvalidSequence
      else Parsed(Decoded(frame[..16], seqNo, total, frame[24..]))
  }

  function FrameOf(frameId: Bytes, seqNo: int, total: int, chunk: Bytes): Bytes
    requires |frameId| == FRAME_ID_BYTES && 0 <= seqNo < total <= MAX_INT
  {
    frameId + WriteUInt32(seqNo) + WriteUInt32(total) + chunk
  }

  /** Decoding a frame gives back the fields it was built from. */
  lemma {:induction false} FrameRoundTrip(frameId: Bytes, seqNo: int, total: int, chunk: Bytes)
    requires |frameId| == FRAME_ID_BYTES && 0 <= seqNo < total <= MAX_INT
    ensures DecodeFrame(FrameOf(frameId, seqNo, total, chunk)) == Parsed(Decoded(frameId, seqNo, total, chunk))
  {
    var f := FrameOf(frameId, seqNo, total, chunk);
    assert f[..16] == frameId && f[16..20] == WriteUInt32(seqNo) && f[20..24] == WriteUInt32(total) && f[24..] == chunk;
    UInt32RoundTrip(seqNo);
    UInt32RoundTrip(total);
  }

  /** Whatever decodes is, when its numbers are non-negative, the frame of its own fields. */
  lemma {:induction false} DecodedIsFrame(frame: Bytes)
    requires DecodeFrame(frame).Parsed? && DecodeFrame(frame).frame.seqNo >= 0
    ensures var d := DecodeFrame(frame).frame;
      |d.frameId| == FRAME_ID_BYTES && d.total <= MAX_INT && frame == FrameOf(d.frameId, d.seqNo, d.total, d.chunk)
  {
    WriteAfterRead(frame[16..20]);
    WriteAfterRead(frame[20..24]);
    assert frame == frame[..16] + frame[16..20] + frame[20..24] + frame[24..];
  }

  lemma {:induction false} WriteAfterRead(b: Bytes)
    requires |b| == 4 && ReadUInt32(b) >= 0
    ensures ReadUInt32(b) <= MAX_INT && WriteUInt32(ReadUInt32(b)) == b
  {
    var x := BigEndian(b[0], b[1], b[2], b[3]);
    assert b[0] < 128;
    assert ReadUInt32(b) == x;
  }

  /** The value of four bytes, the first the highest, as a signed number. */
  function Signed(b: Bytes, at: nat): int
    requires at + 4 <= |b|
  {
    var (p: int, q: int, r: int, s: int) := (b[at], b[at + 1], b[at + 2], b[at + 3]);
    var x := p * 0x100_0000 + q * 0x1_0000 + r * 0x100 + s;
    if x >= 0x8000_0000 then x - 0x1_0000_0000 else x
  }

  lemma {:induction false} ReadsSigned(b: Bytes, at: nat)
    requires at + 4 <= |b|
    ensures ReadUInt32(b[at..at + 4]) == Signed(b, at)
  {
    var c := b[at..at + 4];
    assert c[0] == b[at] && c[1] == b[at + 1] && c[2] == b[at + 2] && c[3] == b[at + 3];
    BytesBound(c[0], c[1], c[2], c[3]);
  }

  lemma {:induction false} BytesBound(a: int, b: int, c: int, d: int)
    requires 0 <= a < 256 && 0 <= b < 256 && 0 <= c < 256 && 0 <= d < 256
    ensures BigEndian(a, b, c, d) == a * 0x100_0000 + b * 0x1_0000 + c * 0x100 + d
    ensures 0 <= BigEndian(a, b, c, d) < 0x1_0000_0000
    ensures ToInt(BigEndian(a, b, c, d))
      == BigEndian(a, b, c, d) - if BigEndian(a, b, c, d) >= 0x8000_0000 then 0x1_0000_0000 else 0
  {
  }

  /** The layout on the wire: 16 bytes of id, the frame's number and the number of frames in four bytes each, the high
      one first, then the chunk. Anything shorter, a total of 0 and a number past the total are refused. */
  lemma {:induction false} DecodeReadsLayout(frame: Bytes)
    ensures DecodeFrame(frame) ==
      if |frame| < 24 then TooShort
      else if Signed(frame, 20) == 0 || Signed(frame, 16) >= Signed(frame, 20) then InvalidSequence
      else Parsed(Decoded(frame[..16], Signed(frame, 16), Signed(frame, 20), frame[24..]))
  {
    if |frame| >= 24 {
      ReadsSigned(frame, 16);
      ReadsSigned(frame, 20);
    }
  }

  // ---------------------------------------------------------------- splitting

  /** Division of `Int`s, rounding towards zero. */
  function Quotient(a: int, b: int): int
    requires b > 0
  {
    if a >= 0 then a / b else -(-a / b)
  }

  function ChunkBytes(requested: int): int {
    Min(DEFAULT_MAX_MESSAGE_BYTES, if requested != 0 then requested else DEFAULT_MAX_FRAME_CHUNK_BYTES)
  }

  /** The number of frames, computed with wrapping addition. */
  function Total(size: nat, chunk: int): int
    requires chunk > 0
  {
    Max(1, Quotient(ToInt(size + chunk - 1), chunk))
  }

  function ChunkAt(body: Bytes, chunk: int, i: nat): Bytes
    requires chunk > 0 && i * chunk <= |body|
  {
    body[i * chunk..Min(|body|, i * chunk + chunk)]
  }

  function Concat(chunks: seq<Bytes>): Bytes {
    if chunks == [] then [] else Concat(chunks[..|chunks| - 1]) + chunks[|chunks| - 1]
  }

  /** `encodeFrames` fails on an id of the wrong length, and on a negative chunk size (its first slice is refused). */
  datatype EncodeResult = Encoded(frames: seq<Bytes>) | BadFrameId | BadChunkSize

  lemma {:induction false} StartInBounds(size: nat, chunk: int, i: nat)
    requires chunk > 0 && size <= MAX_INT && chunk <= DEFAULT_MAX_MESSAGE_BYTES && i < Total(size, chunk)
    ensures i * chunk <= size && Total(size, chunk) <= MAX_INT
    ensures i == 0 || i * chunk + chunk <= MAX_INT
  {
    var n := ToInt(size + chunk - 1);
    if n < 0 {
    } else {
      assert n == size + chunk - 1;
      Division(n, chunk);
      if i > 0 {
        MulLe(i + 1, n / chunk, chunk);
      }
    }
  }

  lemma {:induction false} Division(n: nat, d: int)
    requires d > 0
    ensures n / d * d <= n < n / d * d + d && n / d <= n
  {
    MulLe(1, d, n / d);
  }

  lemma {:induction false} MulLe(a: int, b: int, c: int)
    requires a <= b && c >= 0
    ensures a * c <= b * c && c * a <= c * b
  {
  }

  method EncodeFrames(frameId: Bytes, body: Bytes, requested: int) returns (r: EncodeResult)
    requires |body| <= MAX_INT
    ensures |frameId| != FRAME_ID_BYTES ==> r == BadFrameId
    ensures |frameId| == FRAME_ID_BYTES && ChunkBytes(requested) < 0 ==> r == BadChunkSize
    ensures |frameId| == FRAME_ID_BYTES && ChunkBytes(requested) > 0 ==>
      var chunks := ChunksOf(body, ChunkBytes(requested));
      && r.Encoded? && |r.frames| == |chunks| <= MAX_INT
      && forall i | 0 <= i < |chunks| :: r.frames[i] == FrameOf(frameId, i, |chunks|, chunks[i])
  {
    if |frameId| != FRAME_ID_BYTES {
      return BadFrameId;
    }
    var chunk := ChunkBytes(requested);
    if chunk < 0 {
      return BadChunkSize;
    }
    var total := Total(|body|, chunk);
    var frames: seq<Bytes> := [];
    StartInBounds(|body|, chunk, 0);
    for i := 0 to total
      invariant |frames| == i && total <= MAX_INT
      invariant forall k | 0 <= k < i :: frames[k] == FrameOf(frameId, k, total, ChunksOf(body, chunk)[k])
    {
      ChunksOfAt(body, chunk, i);
      var start := i * chunk;
      var end := Min(|body|, start + chunk);
      var piece := body[start..end];
      frames := frames + [frameId + WriteUInt32(i) + WriteUInt32(total) + piece];
    }
    r := Encoded(frames);
  }

  ghost function ChunksOf(body: Bytes, chunk: int): (r: seq<Bytes>)
    requires chunk > 0 && |body| <= MAX_INT && chunk <= DEFAULT_MAX_MESSAGE_BYTES
    ensures |r| == Total(|body|, chunk)
  {
    seq(Total(|body|, chunk), i requires 0 <= i < Total(|body|, chunk) =>
      StartInBounds(|body|, chunk, i); ChunkAt(body, chunk, i))
  }

  lemma {:induction false} ChunksOfAt(body: Bytes, chunk: int, i: nat)
    requires chunk > 0 && |body| <= MAX_INT && chunk <= DEFAULT_MAX_MESSAGE_BYTES && i < Total(|body|, chunk)
    ensures i * chunk <= |body| && ChunksOf(body, chunk)[i] == ChunkAt(body, chunk, i)
  {
    StartInBounds(|body|, chunk, i);
  }

  lemma {:induction false} ExtendSlice(body: Bytes, a: nat, b: nat)
    requires a <= b <= |body|
    ensures body[..a] + body[a..b] == body[..b]
  {
  }

  lemma {:induction false} NextStart(i: nat, chunk: int)
    ensures i * chunk + chunk == (i + 1) * chunk
  {
  }

  lemma {:induction false} ChunksCover(body: Bytes, chunk: int, k: nat)
    requires chunk > 0 && |body| <= MAX_INT && chunk <= DEFAULT_MAX_MESSAGE_BYTES && k < Total(|body|, chunk)
    ensures k * chunk <= |body|
    ensures Concat(ChunksOf(body, chunk)[..k + 1]) == body[..Min(|body|, k * chunk + chunk)]
  {
    var c := ChunksOf(body, chunk);
    ChunksOfAt(body, chunk, k);
    assert c[..k + 1][..k] == c[..k];
    if k == 0 {
      assert c[..0] == [];
    } else {
      ChunksCover(body, chunk, k - 1);
      NextStart(k - 1, chunk);
      ExtendSlice(body, k * chunk, Min(|body|, k * chunk + chunk));
    }
  }

  lemma {:induction false} TotalWithoutOverflow(n: nat, chunk: int)
    requires 0 < chunk <= DEFAULT_MAX_MESSAGE_BYTES && n + chunk - 1 <= MAX_INT
    ensures Total(n, chunk) == Max(1, (n + chunk - 1) / chunk)
  {
    assert ToInt(n + chunk - 1) == n + chunk - 1;
  }

  lemma {:induction false} TotalWithOverflow(n: nat, chunk: int)
    requires 0 < chunk <= DEFAULT_MAX_MESSAGE_BYTES && n <= MAX_INT < n + chunk - 1
    ensures Total(n, chunk) == 1
  {
    var m := -ToInt(n + chunk - 1);
    assert m > 0;
    Division(m, chunk);
  }

  lemma {:induction false} EnoughFrames(n: nat, chunk: int)
    requires 0 < chunk <= DEFAULT_MAX_MESSAGE_BYTES && n + chunk - 1 <= MAX_INT
    ensures (Total(n, chunk) - 1) * chunk + chunk >= n
  {
    var q := (n + chunk - 1) / chunk;
    TotalWithoutOverflow(n, chunk);
    Division(n + chunk - 1, chunk);
    LastFrameReaches(n, chunk, q);
  }

  lemma {:induction false} LastFrameReaches(n: nat, chunk: int, q: nat)
    requires chunk > 0 && n + chunk - 1 < q * chunk + chunk
    ensures (Max(1, q) - 1) * chunk + chunk >= n
  {
    if q > 0 {
      NextStart(q - 1, chunk);
    }
  }

  /** The frames carry the whole message exactly when the 32-bit frame count does not overflow; past that
      (bodies within 8 MiB of 2 GiB) a single truncated frame is sent. */
  lemma {:induction false} ChunksCarryBodyIff(body: Bytes, chunk: int)
    requires chunk > 0 && |body| <= MAX_INT && chunk <= DEFAULT_MAX_MESSAGE_BYTES
    ensures Concat(ChunksOf(body, chunk)) == body <==> |body| + chunk - 1 <= MAX_INT
  {
    var total, c := Total(|body|, chunk), ChunksOf(body, chunk);
    ChunksCover(body, chunk, total - 1);
    assert c[..total - 1 + 1] == c;
    if |body| + chunk - 1 <= MAX_INT {
      EnoughFrames(|body|, chunk);
      assert body[..|body|] == body;
    } else {
      TotalWithOverflow(|body|, chunk);
      assert |Concat(c)| == chunk;
    }
  }

  /** Every slice but the last is full. */
  lemma {:induction false} SlicesAreFull(body: Bytes, chunk: int, i: nat)
    requires chunk > 0 && |body| <= MAX_INT && chunk <= DEFAULT_MAX_MESSAGE_BYTES && i < Total(|body|, chunk)
    ensures |ChunksOf(body, chunk)[i]| <= chunk
    ensures i + 1 < Total(|body|, chunk) ==> |ChunksOf(body, chunk)[i]| == chunk
  {
    ChunksOfAt(body, chunk, i);
    NextStart(i, chunk);
    if i + 1 < Total(|body|, chunk) {
      StartInBounds(|body|, chunk, i + 1);
    }
  }

  /** The chunk size: 15 KiB unless one is asked for, 8 MiB at most. */
  lemma {:induction false} ChunkSizes(requested: int)
    ensures ChunkBytes(0) == 15_360
    ensures requested != 0 ==> ChunkBytes(requested) == if requested > 8_388_608 then 8_388_608 else requested
  {
  }
}
