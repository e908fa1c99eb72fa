/**
 * The program stream multiplexer of file/libmpeg/psmux.c (ISO/IEC 13818-1 section 2.5): a pack
 * header per frame, system header and stream map before key frames, then the frame in pieces.
 */
module PsMux {
  import opened Bytes
  import opened Pes

  const MIN_PES_LENGTH := 1000
  const MAX_PES_LENGTH := 65000

  datatype Program = Program(kinds: seq<byte>, muxRate: nat) {
    predicate Valid() {
      1 <= |kinds| <= MAX_STREAM_NUM && forall k <- kinds :: IsVideo(k) || IsAudio(k)
    }
  }

  datatype Frame = Frame(stream: nat, data: seq<byte>, key: bool, pts: nat, pesLength: int)

  /** The units of a program stream. */
  datatype Pack =
    | PackHead(pts: nat, muxRate: nat)
    | SysHead(program: Program)
    | StreamMap(program: Program)
    | Media(id: byte, stamp: nat, es: seq<byte>)
  {
    predicate Valid() {
      match this
      case PackHead(_, _) => true
      case SysHead(p) => p.Valid()
      case StreamMap(p) => p.Valid()
      case Media(id, _, es) => id >= 0xC0 && |es| + 13 <= 65535
    }

    function Bytes(): (s: seq<byte>)
      requires Valid()
      ensures |s| >= 14
    {
      match this
      case PackHead(pts, rate) => PackHeader(pts, rate)
      case SysHead(p) => SystemHeader(p)
      case StreamMap(p) => StreamMapBytes(p)
      case Media(id, pts, es) => MakeHeader(id, pts, |es|) + es
    }
  }

  function Scr(pts: nat): (s: seq<byte>)
    ensures |s| == 6
  {
    [0x44 + pts / 0x4000_0000 % 8 * 8 + pts / 0x1000_0000 % 4, pts / 0x10_0000 % 256,
     pts / 0x8000 % 32 * 8 + 4 + pts / 0x2000 % 4, pts / 0x20 % 256, pts % 32 * 8 + 4, 1]
  }

  function PackHeader(pts: nat, muxRate: nat): (s: seq<byte>)
    ensures |s| == 14
  {
    [0, 0, 1, 0xBA] + Scr(pts)
    + [muxRate / 0x4000 % 256, muxRate / 0x40 % 256, muxRate % 64 * 4 + 3, 0xF8]
  }

  function CountKinds(kinds: seq<byte>, video: bool): (n: nat)
    ensures n <= |kinds|
  {
    if kinds == [] then 0
    else (if (if video then IsVideo(kinds[0]) else IsAudio(kinds[0])) then 1 else 0) + CountKinds(kinds[1..], video)
  }

  function SystemHeader(p: Program): (s: seq<byte>)
    requires p.Valid()
    ensures |s| == 18
  {
    [0, 0, 1, 0xBB] + Be16(12)
    + [0x80 + p.muxRate / 0x8000 % 128, p.muxRate / 0x80 % 256, p.muxRate % 128 * 2 + 1]
    + [CountKinds(p.kinds, false) * 4, 0xE0 + CountKinds(p.kinds, true), 0xFF]
    + [0xB8, 0xC0, 0x40] + [0xB9, 0xE2, 0x00]
  }

  function MapEntry(kind: byte, stream: nat): (s: seq<byte>)
    ensures |s| == 4
  {
    [kind, StreamId(kind, 0, stream), 0, 0]
  }

  function MapEntries(kinds: seq<byte>, from: nat): (s: seq<byte>)
    requires from <= |kinds|
    ensures |s| == 4 * (|kinds| - from)
    decreases |kinds| - from
  {
    if from == |kinds| then [] else MapEntry(kinds[from], from) + MapEntries(kinds, from + 1)
  }

  /** The CRC of the map is left zero. */
  function StreamMapBytes(p: Program): (s: seq<byte>)
    requires p.Valid()
    ensures |s| == 16 + 4 * |p.kinds|
  {
    [0, 0, 1, 0xBC] + Be16(10 + 4 * |p.kinds|) + [0xE0, 0xFF, 0, 0] + Be16(4 * |p.kinds|)
    + MapEntries(p.kinds, 0) + [0, 0, 0, 0]
  }

  // ---------------------------------------------------------------- frames

  function PieceLength(pesLength: int): (n: nat)
    ensures MIN_PES_LENGTH <= n <= MAX_PES_LENGTH
  {
    if pesLength < MIN_PES_LENGTH then MIN_PES_LENGTH
    else if pesLength > MAX_PES_LENGTH then MAX_PES_LENGTH
    else pesLength
  }

  /** The payloads of a frame's PES packets. */
  function Pieces(data: seq<byte>, n: nat): (ps: seq<seq<byte>>)
    requires n > 0
    ensures forall p <- ps :: 1 <= |p| <= n
  {
    if data == [] then []
    else if |data| <= n then [data]
    else [data[..n]] + Pieces(data[n..], n)
  }

  lemma {:induction false} PiecesCount(data: seq<byte>, n: nat)
    requires n > 0
    ensures |Pieces(data, n)| == (|data| + n - 1) / n
    decreases |data|
  {
    if |data| > n {
      Ceiling(|data|, n);
      PiecesCount(data[n..], n);
    } else if data != [] {
      Quotient(|data| + n - 1, n, 1, |data| - 1);
    }
  }

  lemma Ceiling(len: nat, n: nat)
    requires len > n > 0
    ensures (len + n - 1) / n == 1 + (len - n + n - 1) / n
  {
    var q, r := (len - 1) / n, (len - 1) % n;
    assert len - 1 == n * q + r;
    assert len + n - 1 == n * (q + 1) + r;
    Quotient(len + n - 1, n, q + 1, r);
  }

  lemma {:induction false} FlattenPieces(data: seq<byte>, n: nat)
    requires n > 0
    ensures Flatten(Pieces(data, n)) == data
  {
    if data != [] {
      if |data| <= n {
        FlattenOne(data);
      } else {
        FlattenPieces(data[n..], n);
        assert data == data[..n] + data[n..];
      }
    }
  }

  function MediaPacks(id: byte, pts: nat, pieces: seq<seq<byte>>): (ps: seq<Pack>)
    ensures |ps| == |pieces|
    ensures id >= 0xC0 && (forall p <- pieces :: |p| + 13 <= 65535) ==> forall p <- ps :: p.Valid()
  {
    if pieces == [] then [] else [Media(id, pts, pieces[0])] + MediaPacks(id, pts, pieces[1..])
  }

  function FrameId(frame: Frame, p: Program): byte
    requires frame.stream < |p.kinds|
  {
    StreamId(p.kinds[frame.stream], 0, frame.stream)
  }

  /** lts_ps_stream: the packs of one call. */
  function FramePacks(frame: Frame, p: Program): seq<Pack>
    requires p.Valid() && frame.stream < |p.kinds|
  {
    [PackHead(frame.pts, p.muxRate)]
    + (if frame.key then [SysHead(p), StreamMap(p)] else [])
    + MediaPacks(FrameId(frame, p), frame.pts, Pieces(frame.data, PieceLength(frame.pesLength)))
  }

  /** The packs of a whole run. */
  function RunPacks(frames: seq<Frame>, p: Program): seq<Pack>
    requires p.Valid() && AllFit(frames, |p.kinds|)
  {
    if frames == [] then [] else FramePacks(frames[0], p) + RunPacks(frames[1..], p)
  }

  /** The calls lts_ps_stream accepts: a stream of the program, and data. */
  predicate AllFit(frames: seq<Frame>, streamNum: nat) {
    frames == [] || (frames[0].stream < streamNum && frames[0].data != [] && AllFit(frames[1..], streamNum))
  }

  lemma MediaIds(p: Program, stream: nat)
    requires p.Valid() && stream < |p.kinds|
    ensures StreamId(p.kinds[stream], 0, stream) ==
            (if IsVideo(p.kinds[stream]) then 0xE0 else 0xC0) + stream
  {
    assert p.kinds[stream] in p.kinds;
  }

  lemma FramePacksValid(frame: Frame, p: Program)
    requires p.Valid() && frame.stream < |p.kinds|
    ensures forall q <- FramePacks(frame, p) :: q.Valid()
  {
    MediaIds(p, frame.stream);
  }

  lemma {:induction false} RunPacksValid(frames: seq<Frame>, p: Program)
    requires p.Valid() && AllFit(frames, |p.kinds|)
    ensures forall q <- RunPacks(frames, p) :: q.Valid()
  {
    if frames != [] {
      FramePacksValid(frames[0], p);
      RunPacksValid(frames[1..], p);
    }
  }
}
