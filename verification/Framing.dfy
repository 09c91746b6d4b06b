/** Turning a TCP byte stream into GT06 frames: the incremental parser, its
resynchronisation and its buffer guard. */
module Framing {
  import opened Basics
  import opened Crc
  import opened Wire

  const TRAILER_LEN := 4  // serial and checksum

  datatype Frame = Frame(protocol: byte, content: seq<byte>, serial: word, crc: word, crcOk: bool)

  // ---- What the decoder computes, as functions of the buffer ------------------------

  predicate FirstByte(b: byte) { b == 0x78 || b == 0x79 }
  predicate StartAt(buf: seq<byte>, i: nat) {
    i + 1 < |buf| && FirstByte(buf[i]) && buf[i + 1] == buf[i]
  }

  /** The first start marker of either kind; the length of the buffer if there is none. */
  function FirstStart(buf: seq<byte>): (i: nat)
    ensures i <= |buf|
    ensures i < |buf| ==> StartAt(buf, i)
    ensures forall k: nat | k < i :: !StartAt(buf, k)
  {
    if |buf| < 2 then |buf|
    else if StartAt(buf, 0) then 0
    else
      var i := FirstStart(buf[1..]);
      assert forall k: nat | 0 < k :: StartAt(buf, k) == StartAt(buf[1..], k - 1);
      1 + i
  }

  lemma {:induction false} FirstStartUnique(buf: seq<byte>, i: nat)
    requires i <= |buf|
    requires i < |buf| ==> StartAt(buf, i)
    requires forall k: nat | k < i :: !StartAt(buf, k)
    ensures FirstStart(buf) == i
  {
    var j := FirstStart(buf);
  }

  function Resync(buf: seq<byte>): seq<byte> {
    var i := FirstStart(buf);
    if i < |buf| then buf[i..]
    else if buf != [] && FirstByte(buf[|buf| - 1]) then [buf[|buf| - 1]]
    else []
  }

  /** One call of `_next_frame`: wait for more bytes, hand over a frame, or drop one. */
  datatype Step = Wait(rest: seq<byte>) | Took(frame: Frame, rest: seq<byte>) | Dropped(rest: seq<byte>)

  function HeadLen(buf: seq<byte>): nat requires buf != [] { if buf[0] == 0x78 then 3 else 4 }

  function LengthField(buf: seq<byte>): nat
    requires |buf| >= 4 || (|buf| == 3 && buf[0] == 0x78)
  {
    if buf[0] == 0x78 then buf[2] else Unpack(buf[2], buf[3])
  }

  /** The fields of a complete frame. */
  function Parse(raw: seq<byte>): Frame
    requires raw != [] && |raw| >= HeadLen(raw) + 1 + TRAILER_LEN + 2
  {
    var n := |raw|;
    Frame(raw[HeadLen(raw)], raw[HeadLen(raw) + 1..n - 6],
          Unpack(raw[n - 6], raw[n - 5]), Unpack(raw[n - 4], raw[n - 3]), true)
  }

  predicate CrcMatches(raw: seq<byte>) requires |raw| >= 6 {
    Checksum(raw[2..|raw| - 4]) == Unpack(raw[|raw| - 4], raw[|raw| - 3])
  }

  predicate Stopped(raw: seq<byte>) requires |raw| >= 2 {
    raw[|raw| - 2] == 0x0D && raw[|raw| - 1] == 0x0A
  }

  function Attempt(buf: seq<byte>): Step {
    if !StartAt(buf, 0) then Wait(buf)
    else if |buf| < HeadLen(buf) then Wait(buf)
    else
      var length := LengthField(buf);
      if length < 1 + TRAILER_LEN then Dropped(buf[2..])
      else
        var n := HeadLen(buf) + length + 2;
        if |buf| < n then Wait(buf)
        else if !Stopped(buf[..n]) then Dropped(buf[2..])
        else if !CrcMatches(buf[..n]) then Dropped(buf[n..])
        else Took(Parse(buf[..n]), buf[n..])
  }

  function Next(buf: seq<byte>): Step {
    Attempt(Resync(buf))
  }

  /** Every step that makes progress removes at least a start marker. */
  lemma NextShrinks(buf: seq<byte>)
    ensures !Next(buf).Wait? ==> |Next(buf).rest| + 2 <= |buf|
    ensures |Next(buf).rest| <= |buf|
  {
  }

  datatype Drained = Drained(frames: seq<Frame>, dropped: nat, rest: seq<byte>)

  /** All frames a buffer holds, how many were dropped on the way, and what is left. */
  function Drain(buf: seq<byte>): (d: Drained)
    ensures |d.rest| <= |buf|
    decreases |buf|
  {
    NextShrinks(buf);
    match Next(buf)
    case Wait(rest) => Drained([], 0, rest)
    case Took(f, rest) => var d := Drain(rest); Drained([f] + d.frames, d.dropped, d.rest)
    case Dropped(rest) => var d := Drain(rest); Drained(d.frames, d.dropped + 1, d.rest)
  }

  // ---- The decoder itself ------------------------------------------------------------

  class FrameDecoder {
    var buffer: seq<byte>
    const maxBufferBytes: int
    var droppedFrames: nat

    constructor (maxBufferBytes: int)
      ensures buffer == [] && droppedFrames == 0 && this.maxBufferBytes == maxBufferBytes
    {
      buffer, droppedFrames := [], 0;
      this.maxBufferBytes := maxBufferBytes;
    }

    /** bytes.find of a doubled byte: the first place it stands, or -1. */
    static method Find(buf: seq<byte>, b: byte) returns (at: int)
      ensures at == -1 ==> forall k | 0 <= k < |buf| - 1 :: !(buf[k] == b && buf[k + 1] == b)
      ensures at != -1 ==> 0 <= at < |buf| - 1 && buf[at] == b && buf[at + 1] == b
      ensures at != -1 ==> forall k | 0 <= k < at :: !(buf[k] == b && buf[k + 1] == b)
    {
      at := 0;
      while at < |buf| - 1
        invariant 0 <= at
        invariant forall k | 0 <= k < at && k < |buf| - 1 :: !(buf[k] == b && buf[k + 1] == b)
      {
        if buf[at] == b && buf[at + 1] == b { return; }
        at := at + 1;
      }
      at := -1;
    }

    method DoResync()
      modifies this`buffer
      ensures buffer == Resync(old(buffer))
    {
      var buf := buffer;
      var short := Find(buf, 0x78);
      var long := Find(buf, 0x79);
      if short != -1 || long != -1 {
        var first := if short == -1 then long else if long == -1 then short
                     else if short < long then short else long;
        FirstStartUnique(buf, first);
        buffer := buf[first..];
      } else {
        FirstStartUnique(buf, |buf|);
        if buf != [] && (buf[|buf| - 1] == 0x78 || buf[|buf| - 1] == 0x79) {
          buffer := [buf[|buf| - 1]];
        } else {
          buffer := [];
        }
      }
    }

    method NextFrame() returns (frame: seq<Frame>, progress: bool)
      modifies this`buffer, this`droppedFrames
      ensures var step := Next(old(buffer));
        && progress == !step.Wait?
        && buffer == step.rest
        && frame == (if step.Took? then [step.frame] else [])
        && droppedFrames == old(droppedFrames) + (if step.Dropped? then 1 else 0)
    {
      hide Resync, FirstStart, Checksum;
      DoResync();
      var buf := buffer;
      if |buf| < 2 || !((buf[0] == 0x78 && buf[1] == 0x78) || (buf[0] == 0x79 && buf[1] == 0x79)) {
        return [], false;
      }
      var lenSize := if buf[0] == 0x78 && buf[1] == 0x78 then 1 else 2;
      var headLen := 2 + lenSize;
      if |buf| < headLen { return [], false; }
      var length := if lenSize == 1 then buf[2] else Unpack(buf[2], buf[3]);
      if length < 1 + TRAILER_LEN {
        buffer := buf[2..];
        droppedFrames := droppedFrames + 1;
        return [], true;
      }
      var frameLen := headLen + length + 2;
      if |buf| < frameLen { return [], false; }
      var raw := buf[..frameLen];
      assert raw[frameLen - 2..] == [raw[frameLen - 2], raw[frameLen - 1]];
      if raw[frameLen - 2..] != [0x0D, 0x0A] {
        buffer := buf[2..];
        droppedFrames := droppedFrames + 1;
        return [], true;
      }
      buffer := buf[frameLen..];
      var body := raw[2..headLen + length - 2];
      var protocol := raw[headLen];
      var content := raw[headLen + 1..frameLen - 2 - TRAILER_LEN];
      var serial := Unpack(raw[frameLen - 6], raw[frameLen - 5]);
      var crc := Unpack(raw[frameLen - 4], raw[frameLen - 3]);
      if Checksum(body) != crc {
        droppedFrames := droppedFrames + 1;
        return [], true;
      }
      return [Frame(protocol, content, serial, crc, true)], true;
    }

    method GuardBuffer()
      modifies this`buffer
      ensures buffer == if |old(buffer)| > maxBufferBytes then [] else old(buffer)
    {
      if |buffer| > maxBufferBytes {
        buffer := [];
      }
    }

    method Feed(data: seq<byte>) returns (frames: seq<Frame>)
      modifies this
      ensures frames == Fed(State(old(buffer), old(droppedFrames)), maxBufferBytes, data).0
      ensures State(buffer, droppedFrames) == Fed(State(old(buffer), old(droppedFrames)), maxBufferBytes, data).1
      ensures |buffer| <= maxBufferBytes || maxBufferBytes < 0
    {
      hide Next;
      buffer := buffer + data;
      frames := [];
      ghost var all := Drain(buffer);
      var progress := true;
      while progress
        invariant progress ==> frames + Drain(buffer).frames == all.frames
        invariant progress ==> droppedFrames + Drain(buffer).dropped == old(droppedFrames) + all.dropped
        invariant progress ==> Drain(buffer).rest == all.rest
        invariant !progress ==> frames == all.frames && buffer == all.rest
        invariant !progress ==> droppedFrames == old(droppedFrames) + all.dropped
        decreases progress, |buffer|
      {
        NextShrinks(buffer);
        var frame;
        frame, progress := NextFrame();
        frames := frames + frame;
      }
      GuardBuffer();
    }
  }

  /** What survives between two reads. */
  datatype State = State(buffer: seq<byte>, dropped: nat)

  /** One `feed`: drain, then guard. */
  function Fed(s: State, max: int, data: seq<byte>): (seq<Frame>, State) {
    var d := Drain(s.buffer + data);
    (d.frames, State(if |d.rest| > max then [] else d.rest, s.dropped + d.dropped))
  }

  /** A read loop's worth of `feed`s. */
  function FedAll(s: State, max: int, chunks: seq<seq<byte>>): (seq<Frame>, State)
    decreases chunks
  {
    if chunks == [] then ([], s)
    else
      var (f, s1) := Fed(s, max, chunks[0]);
      var (g, s2) := FedAll(s1, max, chunks[1..]);
      (f + g, s2)
  }

  // ---- How TCP splits the stream does not matter ---------------------------------------

  lemma ResyncExtend(b: seq<byte>, c: seq<byte>)
    ensures Resync(Resync(b) + c) == Resync(b + c)
  {
    var r := Resync(b);
    var off := |b| - |r|;
    NoStartBefore(b, c);
    FirstStartShift(b + c, off);
    assert (b + c)[off..] == r + c;
    if r + c == [] { assert b + c == b; }
    ResyncShifted(b + c, off, r + c);
  }

  /** What is cut off ahead of a buffer that is itself searched does not matter. */
  lemma ResyncShifted(whole: seq<byte>, off: nat, part: seq<byte>)
    requires off <= |whole| && whole[off..] == part && FirstStart(whole) == off + FirstStart(part)
    requires part == [] ==> Resync(whole) == []
    ensures Resync(part) == Resync(whole)
  {
    hide FirstStart;
    var j := FirstStart(part);
    if j < |part| {
      assert whole[off + j..] == part[j..];
    } else if part != [] {
      assert whole[|whole| - 1] == part[|part| - 1];
    }
  }

  lemma NoStartBefore(b: seq<byte>, c: seq<byte>)
    ensures Resync(b) == b[|b| - |Resync(b)|..]
    ensures forall k: nat | k < |b| - |Resync(b)| :: !StartAt(b + c, k)
  {
    forall k: nat | k < |b| - |Resync(b)| ensures !StartAt(b + c, k) {
      assert !StartAt(b, k);
    }
  }

  /** Bytes before any start marker do not move it. */
  lemma FirstStartShift(buf: seq<byte>, off: nat)
    requires off <= |buf| && forall k: nat | k < off :: !StartAt(buf, k)
    ensures FirstStart(buf) == off + FirstStart(buf[off..])
  {
    if off > 0 {
      assert !StartAt(buf, 0);
      forall k: nat | k < off - 1 ensures !StartAt(buf[1..], k) {
        assert StartAt(buf[1..], k) == StartAt(buf, k + 1);
      }
      FirstStartShift(buf[1..], off - 1);
      assert buf[1..][off - 1..] == buf[off..];
    } else {
      assert buf[0..] == buf;
    }
  }

  lemma AttemptExtend(b: seq<byte>, c: seq<byte>)
    requires !Attempt(b).Wait?
    ensures Attempt(b + c) == (match Attempt(b)
      case Took(f, r) => Took(f, r + c)
      case Dropped(r) => Dropped(r + c)
      case Wait(r) => Wait(r))
  {
    hide CrcMatches, Parse, Stopped;
    assert StartAt(b + c, 0) && HeadLen(b + c) == HeadLen(b) && LengthField(b + c) == LengthField(b);
    var length := LengthField(b);
    assert (b + c)[2..] == b[2..] + c;
    if length >= 1 + TRAILER_LEN {
      var n := HeadLen(b) + length + 2;
      assert (b + c)[..n] == b[..n] && (b + c)[n..] == b[n..] + c;
    }
  }

  /** More bytes behind a buffer never change what the parser does with it. */
  lemma NextExtend(b: seq<byte>, c: seq<byte>)
    ensures match Next(b)
      case Wait(r) => Next(b + c) == Next(r + c)
      case Took(f, r) => Next(b + c) == Took(f, r + c)
      case Dropped(r) => Next(b + c) == Dropped(r + c)
  {
    ResyncExtend(b, c);
    if !Next(b).Wait? {
      AttemptExtend(Resync(b), c);
      assert StartAt(Resync(b) + c, 0);
      FirstStartUnique(Resync(b) + c, 0);
    }
  }

  /** Draining a stream is draining its first part, then the leftover with the rest. */
  lemma {:induction false} DrainSplit(b: seq<byte>, c: seq<byte>)
    ensures var d := Drain(b); var e := Drain(d.rest + c);
      Drain(b + c) == Drained(d.frames + e.frames, d.dropped + e.dropped, e.rest)
    decreases |b|
  {
    hide Next;
    NextExtend(b, c);
    NextShrinks(b);
    if !Next(b).Wait? {
      DrainSplit(Next(b).rest, c);
    }
  }

  /** What a drain leaves behind stays put until more bytes come. */
  predicate Settled(b: seq<byte>) {
    Drain(b) == Drained([], 0, b)
  }

  lemma {:induction false} LeftoverSettled(b: seq<byte>)
    ensures Settled(Drain(b).rest)
    decreases |b|
  {
    NextShrinks(b);
    match Next(b)
    case Wait(r) =>
      ResyncExtend(b, []);
      assert r == Resync(b) && r + [] == r && b + [] == b;
    case Took(_, r) => LeftoverSettled(r);
    case Dropped(r) => LeftoverSettled(r);
  }

  /** How much a drain can leave: one unfinished frame. A short one is at most 259 bytes. */
  lemma {:induction false} LeftoverBound(b: seq<byte>)
    ensures var r := Drain(b).rest;
      && |r| <= 65540
      && (|r| > 259 ==> r[0] == 0x79 && r[1] == 0x79)
    decreases |b|
  {
    NextShrinks(b);
    if !Next(b).Wait? {
      LeftoverBound(Next(b).rest);
    }
  }

  /** No read leaves more behind than the buffer may hold. */
  predicate LeftoversFit(buffer: seq<byte>, max: int, chunks: seq<seq<byte>>)
    decreases chunks
  {
    chunks != [] ==>
      var rest := Drain(buffer + chunks[0]).rest;
      |rest| <= max && LeftoversFit(rest, max, chunks[1..])
  }

  /** Chunking independence: however the stream is cut into reads, as long as the guard
  stays quiet the frames, the leftover and the drop count are those of a single read. */
  lemma {:induction false} ChunkingIndependent(s: State, max: int, chunks: seq<seq<byte>>)
    requires Settled(s.buffer) && |s.buffer| <= max
    requires LeftoversFit(s.buffer, max, chunks)
    ensures FedAll(s, max, chunks) == Fed(s, max, Concat(chunks))
    decreases chunks
  {
    hide Drain;
    if chunks == [] {
      assert s.buffer + [] == s.buffer;
    } else {
      var c, rest := chunks[0], Concat(chunks[1..]);
      var (f, s1) := Fed(s, max, c);
      LeftoverSettled(s.buffer + c);
      ChunkingIndependent(s1, max, chunks[1..]);
      DrainSplit(s.buffer + c, rest);
      assert s.buffer + Concat(chunks) == s.buffer + c + rest;
    }
  }

  lemma {:induction false} BigBufferFits(buffer: seq<byte>, max: int, chunks: seq<seq<byte>>)
    requires max >= 65540
    ensures LeftoversFit(buffer, max, chunks)
    decreases chunks
  {
    if chunks != [] {
      LeftoverBound(buffer + chunks[0]);
      BigBufferFits(Drain(buffer + chunks[0]).rest, max, chunks[1..]);
    }
  }

  /** With room for the longest frame the guard can never fire, so the split never matters. */
  lemma ChunkingIndependentAlways(s: State, max: int, chunks: seq<seq<byte>>)
    requires Settled(s.buffer) && |s.buffer| <= max
    requires max >= 65540
    ensures FedAll(s, max, chunks) == Fed(s, max, Concat(chunks))
  {
    BigBufferFits(s.buffer, max, chunks);
    ChunkingIndependent(s, max, chunks);
  }

  /** Every split of every stream comes to the same as one read, from any state between reads. */
  ghost predicate SplitNeverMatters(max: int) {
    forall s: State, chunks: seq<seq<byte>> | Settled(s.buffer) && |s.buffer| <= max ::
      FedAll(s, max, chunks) == Fed(s, max, Concat(chunks))
  }

  // ---- Reads as the gateway makes them ----------------------------------------------------------

  const READ_SIZE := 4096

  /** What a connection's reads hand over, one after the other. */
  ghost predicate Reads(chunks: seq<seq<byte>>) {
    forall c | c in chunks :: 0 < |c| <= READ_SIZE
  }

  /** Any two ways of reading the same stream come to the same. */
  ghost predicate ReadsNeverMatter(max: int) {
    forall s: State, a: seq<seq<byte>>, b: seq<seq<byte>> |
      Settled(s.buffer) && |s.buffer| <= max && Reads(a) && Reads(b) && Concat(a) == Concat(b) ::
      FedAll(s, max, a) == FedAll(s, max, b)
  }

  /** The bytes a frame's length field announces, all of them and no more. */
  predicate Announced(f: seq<byte>) {
    && |f| >= 10 && StartAt(f, 0) && LengthField(f) >= 1 + TRAILER_LEN
    && |f| == HeadLen(f) + LengthField(f) + 2
  }

  lemma StartsWithMarker(buf: seq<byte>)
    requires StartAt(buf, 0)
    ensures Resync(buf) == buf
  {
    FirstStartUnique(buf, 0);
  }

  /** Without its last byte it waits ... */
  lemma PartWaits(f: seq<byte>, k: nat)
    requires Announced(f) && k < |f|
    ensures Drain(f[..k]) == Drained([], 0, f[..k])
  {
    hide Drain, CrcMatches, Parse, Stopped;
    var buf := f[..k];
    if k >= 2 {
      StartsWithMarker(buf);
      hide FirstStart, Resync;
      assert k >= HeadLen(f) ==> LengthField(buf) == LengthField(f);
    }
    DrainWaits(buf);
  }

  lemma DrainWaits(buf: seq<byte>)
    requires Next(buf) == Wait(buf)
    ensures Drain(buf) == Drained([], 0, buf)
  {
    hide Next;
  }

  /** ... and with it, it is a frame or a drop. */
  lemma WholeEnds(f: seq<byte>)
    requires Announced(f)
    ensures var d := Drain(f); d.frames != [] || d.dropped > 0
  {
    StartsWithMarker(f);
    hide FirstStart, Resync, Drain, CrcMatches, Parse, Stopped;
    assert f[..|f|] == f;
    assert !Next(f).Wait?;
    DrainProgress(f);
  }

  lemma DrainProgress(buf: seq<byte>)
    requires !Next(buf).Wait?
    ensures var d := Drain(buf); d.frames != [] || d.dropped > 0
  {
    hide Next;
  }

  lemma LoneByteIsNoise()
    ensures Drain([0x0A]) == Drained([], 0, [])
  {
    FirstStartUnique([0x0A], 1);
  }

  lemma {:induction false} FedAllAppend(s: State, max: int, a: seq<seq<byte>>, b: seq<seq<byte>>)
    ensures var (f, s1) := FedAll(s, max, a);
      var (g, s2) := FedAll(s1, max, b);
      FedAll(s, max, a + b) == (f + g, s2)
    decreases a
  {
    hide Fed;
    if a == [] {
      assert a + b == b && [] + FedAll(s, max, b).0 == FedAll(s, max, b).0;
    } else {
      var s1 := Fed(s, max, a[0]).1;
      assert (a + b)[0] == a[0] && (a + b)[1..] == a[1..] + b;
      FedAllAppend(s1, max, a[1..], b);
      var f1 := FedAll(s1, max, a[1..]);
      Associate(Fed(s, max, a[0]).0, f1.0, FedAll(f1.1, max, b).0);
    }
  }

  lemma FedOne(s: State, max: int, c: seq<byte>)
    ensures FedAll(s, max, [c]) == Fed(s, max, c)
  {
    hide Fed;
    assert [c][1..] == [];
    assert FedAll(Fed(s, max, c).1, max, []) == ([], Fed(s, max, c).1);
    assert Fed(s, max, c).0 + [] == Fed(s, max, c).0;
  }

  lemma {:induction false} PartsFit(f: seq<byte>, seen: nat, k: nat, max: int, chunks: seq<seq<byte>>)
    requires Announced(f) && seen <= k < |f| && k <= max
    requires f[..seen] + Concat(chunks) == f[..k]
    ensures LeftoversFit(f[..seen], max, chunks)
    decreases chunks
  {
    hide Drain, Announced;
    if chunks != [] {
      var c, rest := chunks[0], Concat(chunks[1..]);
      Associate(f[..seen], c, rest);
      assert |f[..k]| == k && |f[..k]| == |f[..seen] + c| + |rest|;
      assert f[..seen] + c == f[..seen + |c|] by {
        assert f[..seen] + c == f[..k][..seen + |c|];
      }
      PartWaits(f, seen + |c|);
      PartsFit(f, seen + |c|, k, max, chunks[1..]);
    }
  }

  /** The first k bytes of a frame, however they are read, are kept. */
  lemma PartKept(f: seq<byte>, k: nat, max: int, chunks: seq<seq<byte>>)
    requires Announced(f) && k < |f| && k <= max && Concat(chunks) == f[..k]
    ensures FedAll(State([], 0), max, chunks) == ([], State(f[..k], 0))
  {
    NothingLeft();
    assert f[..0] == [] && [] + Concat(chunks) == f[..k];
    PartsFit(f, 0, k, max, chunks);
    PartWaits(f, k);
    hide Drain, Announced;
    ChunkingIndependent(State([], 0), max, chunks);
  }

  lemma FedBy(buffer: seq<byte>, max: int, c: seq<byte>, whole: seq<byte>)
    requires buffer + c == whole
    ensures var d := Drain(whole);
      FedAll(State(buffer, 0), max, [c]) == (d.frames, State(if |d.rest| > max then [] else d.rest, d.dropped))
  {
    hide Drain;
    FedOne(State(buffer, 0), max, c);
  }

  lemma TakenTogether(f: seq<byte>, k: nat, max: int)
    requires Announced(f) && k <= |f|
    ensures var (frames, s) := FedAll(State(f[..k], 0), max, [f[k..]]);
      frames != [] || s.dropped > 0
  {
    hide *;
    WholeEnds(f);
    assert f[..k] + f[k..] == f;
    FedBy(f[..k], max, f[k..], f);
  }

  lemma LostApart(f: seq<byte>, k: nat, max: int)
    requires Announced(f) && k <= max < |f| - 1
    ensures FedAll(State(f[..k], 0), max, [f[k..|f| - 1], [0x0A]]) == ([], State([], 0))
  {
    hide *;
    var n := |f| - 1;
    PartWaits(f, n);
    LoneByteIsNoise();
    var last: seq<byte> := [0x0A];
    assert f[..k] + f[k..n] == f[..n] && [] + last == last;
    FedBy(f[..k], max, f[k..n], f[..n]);
    FedBy([], max, last, last);
    FedAllAppend(State(f[..k], 0), max, [f[k..n]], [last]);
    var none: seq<Frame> := [];
    assert none + none == none && [f[k..n]] + [last] == [f[k..|f| - 1], [0x0A]];
  }

  /** All but the last byte of a frame overflow the buffer: it is lost when that byte comes in a
  read of its own, and not when it comes with those before it. */
  lemma LastByteDecides(f: seq<byte>, k: nat, max: int, chunks: seq<seq<byte>>)
    requires Announced(f) && f[|f| - 1] == 0x0A
    requires k <= max < |f| - 1 && Concat(chunks) == f[..k]
    ensures FedAll(State([], 0), max, chunks + [f[k..]])
         != FedAll(State([], 0), max, chunks + [f[k..|f| - 1], [0x0A]])
  {
    PartKept(f, k, max, chunks);
    FedAllAppend(State([], 0), max, chunks, [f[k..]]);
    FedAllAppend(State([], 0), max, chunks, [f[k..|f| - 1], [0x0A]]);
    TakenTogether(f, k, max);
    LostApart(f, k, max);
    hide FedAll, Announced;
  }

  /** A stream as full reads and a last, shorter one. */
  function Pieces(data: seq<byte>): seq<seq<byte>> {
    if |data| <= READ_SIZE then [data] else [data[..READ_SIZE]] + Pieces(data[READ_SIZE..])
  }

  lemma PiecesAreReads(data: seq<byte>)
    requires data != []
    ensures Reads(Pieces(data)) && Concat(Pieces(data)) == data
    decreases |data|
  {
    if |data| > READ_SIZE {
      PiecesAreReads(data[READ_SIZE..]);
      assert data == data[..READ_SIZE] + data[READ_SIZE..];
    } else {
      assert data + [] == data && [data][1..] == [];
    }
  }

  /** An extended frame of n bytes, its checksum whatever it may be. */
  function ExtendedFrame(n: nat): (f: seq<byte>)
    requires 11 <= n <= 65541
    ensures |f| == n && Announced(f) && f[n - 1] == 0x0A
  {
    var length := n - 6;
    var f: seq<byte> := [0x79, 0x79, length / 256, length % 256] + seq(length, _ => 0) + [0x0D, 0x0A];
    assert StartAt(f, 0);
    f
  }

  function ShortFrame(): (f: seq<byte>)
    ensures |f| == 10 && Announced(f) && f[9] == 0x0A
  {
    var f: seq<byte> := [0x78, 0x78, 5, 0, 0, 0, 0, 0, 0x0D, 0x0A];
    assert StartAt(f, 0);
    f
  }

  /** For every smaller limit, one stream and two ways of reading it that do not agree: a frame two
  bytes longer than the buffer, its last two bytes in one read or in two. (A buffer of 8 bytes or
  fewer has no room for any frame: then it is the shortest frame, whole or but for its last byte.) */
  lemma SmallBufferSplits(max: int) returns (a: seq<seq<byte>>, b: seq<seq<byte>>)
    requires 0 <= max < 65540
    ensures Reads(a) && Reads(b) && Concat(a) == Concat(b)
    ensures FedAll(State([], 0), max, a) != FedAll(State([], 0), max, b)
  {
    if max >= 9 {
      var f := ExtendedFrame(max + 2);
      PiecesAreReads(f[..max]);
      hide FedAll, Announced, Pieces;
      a, b := LastByteAlone(f, max, max, Pieces(f[..max]));
    } else {
      var f := ShortFrame();
      hide FedAll, Announced;
      assert f[..0] == Concat([]);
      a, b := LastByteAlone(f, 0, max, []);
    }
  }

  lemma LastByteAlone(f: seq<byte>, k: nat, max: int, chunks: seq<seq<byte>>)
      returns (a: seq<seq<byte>>, b: seq<seq<byte>>)
    requires Announced(f) && f[|f| - 1] == 0x0A && k <= max < |f| - 1 < k + READ_SIZE
    requires Reads(chunks) && Concat(chunks) == f[..k]
    ensures Reads(a) && Reads(b) && Concat(a) == Concat(b)
    ensures FedAll(State([], 0), max, a) != FedAll(State([], 0), max, b)
  {
    hide FedAll, Announced, Concat;
    a, b := chunks + [f[k..]], chunks + [f[k..|f| - 1], [0x0A]];
    LastByteDecides(f, k, max, chunks);
    SameStream(f, k, chunks);
  }

  lemma SameStream(f: seq<byte>, k: nat, chunks: seq<seq<byte>>)
    requires k < |f| && f[|f| - 1] == 0x0A
    ensures Concat(chunks + [f[k..]]) == Concat(chunks + [f[k..|f| - 1], [0x0A]])
  {
    var n := |f| - 1;
    ConcatAppend(chunks, [f[k..]]);
    ConcatAppend(chunks, [f[k..n], [0x0A]]);
    assert Concat([f[k..]]) == f[k..];
    assert [f[k..n], [0x0A]][1..] == [[0x0A]] && Concat([[0x0A]]) == [0x0A];
    assert f[k..] == f[k..n] + [0x0A];
  }

  /** Exactly how much room makes the reads never matter: that of the longest unfinished frame. */
  lemma ReadsNeverMatterIff(max: int)
    requires 0 <= max
    ensures ReadsNeverMatter(max) <==> max >= 65540
  {
    if max >= 65540 {
      forall s: State, a: seq<seq<byte>>, b: seq<seq<byte>> |
        Settled(s.buffer) && |s.buffer| <= max && Reads(a) && Reads(b) && Concat(a) == Concat(b)
        ensures FedAll(s, max, a) == FedAll(s, max, b)
      {
        ChunkingIndependentAlways(s, max, a);
        ChunkingIndependentAlways(s, max, b);
      }
    } else {
      var a, b := SmallBufferSplits(max);
      NothingLeft();
      hide Reads;
      assert Settled(State([], 0).buffer);
    }
  }

  /** The same for feeds of any size, against one feed of the whole stream. */
  lemma SplitNeverMattersIff(max: int)
    requires 0 <= max
    ensures SplitNeverMatters(max) <==> max >= 65540
  {
    if max >= 65540 {
      forall s: State, chunks: seq<seq<byte>> | Settled(s.buffer) && |s.buffer| <= max
        ensures FedAll(s, max, chunks) == Fed(s, max, Concat(chunks))
      {
        ChunkingIndependentAlways(s, max, chunks);
      }
    } else if SplitNeverMatters(max) {
      var a, b := SmallBufferSplits(max);
      NothingLeft();
      assert Settled(State([], 0).buffer);
      assert false;
    }
  }

  lemma NothingLeft()
    ensures Drain([]) == Drained([], 0, [])
  {
  }

  // ---- What is not a frame ----------------------------------------------------------------------

  /** Bytes that start like a frame but cannot be one: the length is too short for one, or all the
  bytes it announces are there and do not end with the stop bytes. */
  predicate FalseStart(buf: seq<byte>) {
    if |buf| >= 3 && buf[0] == 0x78 && buf[1] == 0x78 then
      var n: int := buf[2] as int + 5;
      buf[2] < 5 || (|buf| >= n && !(buf[n - 2] == 0x0D && buf[n - 1] == 0x0A))
    else if |buf| >= 4 && buf[0] == 0x79 && buf[1] == 0x79 then
      var length: int := 0x100 * (buf[2] as int) + buf[3];
      var n: int := length + 6;
      length < 5 || (|buf| >= n && !(buf[n - 2] == 0x0D && buf[n - 1] == 0x0A))
    else false
  }

  /** Only its two start bytes go, for one drop: a frame further on is not lost with it. */
  lemma FalseStartDrain(buf: seq<byte>)
    requires FalseStart(buf)
    ensures var d := Drain(buf[2..]);
      Drain(buf) == Drained(d.frames, d.dropped + 1, d.rest)
  {
    assert StartAt(buf, 0);
    StartsWithMarker(buf);
    FalseStartDrops(buf);
    hide Resync, FirstStart, Attempt;
    assert Next(buf) == Dropped(buf[2..]);
  }

  lemma FalseStartDrops(buf: seq<byte>)
    requires FalseStart(buf)
    ensures Attempt(buf) == Dropped(buf[2..])
  {
    hide CrcMatches, Parse;
  }

  /** Bytes ahead of the first doubled 78 or 79 go without a drop ... */
  lemma NoiseDrain(noise: seq<byte>, rest: seq<byte>)
    requires rest != [] && forall k: nat | k < |noise| :: !StartAt(noise + rest, k)
    ensures Drain(noise + rest) == Drain(rest)
  {
    FirstStartShift(noise + rest, |noise|);
    assert (noise + rest)[|noise|..] == rest;
    ResyncShifted(noise + rest, |noise|, rest);
    hide Resync, FirstStart, Attempt;
    SameNext(noise + rest, rest);
  }

  /** ... and without one they all go, but for a last 78 or 79 that may be half of it. */
  lemma NoiseAlone(noise: seq<byte>)
    requires forall k: nat :: !StartAt(noise, k)
    ensures Drain(noise) == Drained([], 0,
      if noise != [] && noise[|noise| - 1] in {0x78, 0x79} then [noise[|noise| - 1]] else [])
  {
    FirstStartUnique(noise, |noise|);
  }

  lemma SameNext(a: seq<byte>, b: seq<byte>)
    requires Next(a) == Next(b)
    ensures Drain(a) == Drain(b)
  {
    hide Next;
  }

  /** The guard fires only on something that claims to be an extended frame. */
  lemma GuardSparesShortFrames(s: State, max: int, data: seq<byte>)
    requires max >= 259
    ensures var r := Drain(s.buffer + data).rest;
      Fed(s, max, data).1.buffer != r ==> r[..2] == [0x79, 0x79]
  {
    LeftoverBound(s.buffer + data);
  }
}
