/** Printer and parser undo each other, through any split into reads and around damage. */
module RoundTrip {
  import opened Basics
  import opened Crc
  import opened Wire
  import opened Framing
  import opened Codec
  import opened Models

  /** What build_frame is asked to print. */
  datatype Request = Request(protocol: byte, serial: word, content: seq<byte>)

  /** The ones it prints. */
  type Packet = p: Request | BuildFrame(p.protocol, p.serial, p.content).Ok? witness Request(0, 0, [])

  function Print(p: Packet): seq<byte> {
    BuildFrame(p.protocol, p.serial, p.content).value
  }

  function FrameOf(p: Packet): Frame {
    var length := |p.content| + 5;
    Frame(p.protocol, p.content, p.serial, Checksum([length] + FrameBody(p.protocol, p.serial, p.content)), true)
  }

  // ---- Blocks: bytes with a frame's outline, whatever their checksum says ---------------

  predicate Outline(raw: seq<byte>) {
    Announced(raw) && Stopped(raw)
  }

  type Block = raw: seq<byte> | Outline(raw)
    witness [0x78, 0x78, 5, 0, 0, 0, 0, 0, 0x0D, 0x0A]

  /** Whatever follows, a block is taken off the buffer whole. */
  lemma NextBlock(raw: Block, tail: seq<byte>)
    ensures Next(raw + tail) == if CrcMatches(raw) then Took(Parse(raw), tail) else Dropped(tail)
  {
    assert StartAt(raw + tail, 0);
    StartsWithMarker(raw + tail);
    hide FirstStart, Resync, CrcMatches, Parse, Stopped;
    assert (raw + tail)[..|raw|] == raw && (raw + tail)[|raw|..] == tail;
    assert LengthField(raw + tail) == LengthField(raw);
  }

  function Outcome(b: Block): (frames: seq<Frame>)
    ensures |frames| <= 1
  {
    if CrcMatches(b) then [Parse(b)] else []
  }

  /** The frames of the undamaged blocks; each of the others is one drop. */
  function Accepted(blocks: seq<Block>): (frames: seq<Frame>)
    ensures |frames| <= |blocks|
  {
    if blocks == [] then [] else Outcome(blocks[0]) + Accepted(blocks[1..])
  }

  lemma {:induction false} DrainBlocks(blocks: seq<Block>)
    ensures Drain(Concat(blocks)) == Drained(Accepted(blocks), |blocks| - |Accepted(blocks)|, [])
  {
    hide CrcMatches, Parse, Next;
    if blocks == [] {
      NothingToRead();
    } else {
      NextBlock(blocks[0], Concat(blocks[1..]));
      DrainBlocks(blocks[1..]);
    }
  }

  lemma NothingToRead()
    ensures Next([]) == Wait([])
  {
  }

  /** Every block starts 78 78. */
  predicate AllShort(blocks: seq<Block>) {
    forall raw | raw in blocks :: raw[0] == 0x78
  }

  lemma ShortBlock(raw: Block)
    ensures raw[0] == 0x78 ==> |raw| <= 260
  {
  }

  /** At every moment of a stream of short blocks the leftover is the unfinished one: under 260 bytes. */
  lemma {:induction false} LeftoverOfPrefix(blocks: seq<Block>, k: nat)
    requires k <= |Concat(blocks)| && AllShort(blocks)
    ensures |Drain(Concat(blocks)[..k]).rest| <= 259
  {
    hide CrcMatches, Parse, Next, Outline;
    if blocks == [] {
      NothingToRead();
    } else {
      var raw, tail := blocks[0], Concat(blocks[1..]);
      assert raw in blocks && forall b | b in blocks[1..] :: b in blocks;
      ShortBlock(raw);
      if k < |raw| {
        BlockWaits(raw, k);
        assert Concat(blocks)[..k] == raw[..k];
      } else {
        NextBlock(raw, tail[..k - |raw|]);
        assert Concat(blocks)[..k] == raw + tail[..k - |raw|];
        LeftoverOfPrefix(blocks[1..], k - |raw|);
      }
    }
  }

  /** Half a block is kept for later. */
  lemma BlockWaits(raw: Block, k: nat)
    requires k < |raw|
    ensures Drain(raw[..k]).rest == raw[..k]
  {
    hide Announced;
    PartWaits(raw, k);
  }

  /** Room for whatever of these blocks can be unfinished. */
  predicate Roomy(max: int, blocks: seq<Block>) {
    max >= 65540 || (max >= 259 && AllShort(blocks))
  }

  /** So such a buffer never overflows while the stream arrives. */
  lemma {:induction false} BlocksFit(blocks: seq<Block>, max: int, seen: seq<byte>, chunks: seq<seq<byte>>)
    requires Roomy(max, blocks)
    requires seen + Concat(chunks) == Concat(blocks)
    ensures LeftoversFit(Drain(seen).rest, max, chunks)
    decreases chunks
  {
    hide Drain, AllShort, Outline;
    if chunks != [] {
      var c := chunks[0];
      DrainSplit(seen, c);
      LeftoverBound(seen + c);
      assert Concat(blocks)[..|seen + c|] == seen + c;
      if AllShort(blocks) {
        LeftoverOfPrefix(blocks, |seen + c|);
      }
      assert seen + c + Concat(chunks[1..]) == Concat(blocks);
      BlocksFit(blocks, max, seen + c, chunks[1..]);
    }
  }

  lemma {:induction false} FeedBlocks(blocks: seq<Block>, max: int, chunks: seq<seq<byte>>)
    requires Roomy(max, blocks)
    requires Concat(chunks) == Concat(blocks)
    ensures FedAll(State([], 0), max, chunks) == (Accepted(blocks), State([], |blocks| - |Accepted(blocks)|))
  {
    NothingToRead();
    assert Drain([]) == Drained([], 0, []);
    hide Drain, Roomy;
    assert [] + Concat(chunks) == Concat(blocks);
    BlocksFit(blocks, max, [], chunks);
    ChunkingIndependent(State([], 0), max, chunks);
    DrainBlocks(blocks);
  }

  // ---- Printed frames are blocks whose checksum is right --------------------------------

  lemma PrintedIsBlock(p: Packet)
    ensures Outline(Print(p)) && CrcMatches(Print(p)) && Parse(Print(p)) == FrameOf(p)
  {
    hide Checksum;
    var raw := Print(p);
    var n := |raw|;
    var body := FrameBody(p.protocol, p.serial, p.content);
    assert raw[2..n - 4] == [|p.content| + 5] + body;
    assert raw[4..n - 6] == p.content;
    assert raw[n - 6..n - 4] == Pack(p.serial);
    assert raw[n - 6] == Pack(p.serial)[0] && raw[n - 5] == Pack(p.serial)[1];
    assert raw[n - 4..n - 2] == Pack(Checksum([|p.content| + 5] + body));
    assert raw[n - 4] == raw[n - 4..n - 2][0] && raw[n - 3] == raw[n - 4..n - 2][1];
  }

  function PrintAll(ps: seq<Packet>): (blocks: seq<Block>)
    ensures |blocks| == |ps|
  {
    if ps == [] then [] else
      PrintedIsBlock(ps[0]);
      [Print(ps[0])] + PrintAll(ps[1..])
  }

  function FramesOf(ps: seq<Packet>): (frames: seq<Frame>)
    ensures |frames| == |ps|
  {
    if ps == [] then [] else [FrameOf(ps[0])] + FramesOf(ps[1..])
  }

  lemma {:induction false} PrintedAccepted(ps: seq<Packet>)
    ensures Accepted(PrintAll(ps)) == FramesOf(ps)
  {
    hide CrcMatches, Parse, Print, FrameOf;
    if ps != [] {
      PrintedIsBlock(ps[0]);
      PrintedAccepted(ps[1..]);
    }
  }

  /** Round trip: print any packets, cut the bytes into any reads, feed them to a fresh
  decoder, and exactly those frames come out, in order, with nothing dropped or left. */
  lemma {:induction false} PrintParse(ps: seq<Packet>, max: int, chunks: seq<seq<byte>>)
    requires max >= 259
    requires Concat(chunks) == Concat(PrintAll(ps))
    ensures FedAll(State([], 0), max, chunks) == (FramesOf(ps), State([], 0))
  {
    PrintedAccepted(ps);
    PrintedShort(ps);
    FeedBlocks(PrintAll(ps), max, chunks);
  }

  lemma {:induction false} PrintedShort(ps: seq<Packet>)
    ensures AllShort(PrintAll(ps))
  {
    hide Outline;
    if ps != [] {
      PrintedShort(ps[1..]);
    }
  }

  /** One printed frame, read by a fresh decoder. */
  lemma PrintedReadBack(p: Packet, max: int)
    requires max >= 259
    ensures FedAll(State([], 0), max, [Print(p)]) == ([FrameOf(p)], State([], 0))
  {
    PrintedIsBlock(p);
    hide Print, FrameOf;
    var bytes := [Print(p)];
    assert [p][1..] == [] && bytes[1..] == [];
    assert PrintAll([p]) == bytes;
    assert FramesOf([p]) == [FrameOf(p)];
    PrintParse([p], max, bytes);
  }

  /** An acknowledgement can always be built, and pairs with its packet by protocol and serial. */
  lemma AckReadBack(protocol: byte, serial: word, max: int)
    requires max >= 259
    ensures BuildAck(protocol, serial).Ok?
    ensures var (frames, _) := FedAll(State([], 0), max, [BuildAck(protocol, serial).value]);
      |frames| == 1 && frames[0].protocol == protocol && frames[0].serial == serial && frames[0].content == []
  {
    PrintedReadBack(Request(protocol, serial, []), max);
    hide FedAll;
  }

  /** A time answer can be built exactly when each field fits a byte, and carries the six of them. */
  lemma TimeReadBack(serial: word, t: Clock, max: int)
    requires max >= 259
    ensures BuildTimeResponse(serial, t).Ok? <==>
              && IsByte(t.year - 2000) && IsByte(t.month) && IsByte(t.day)
              && IsByte(t.hour) && IsByte(t.minute) && IsByte(t.second)
    ensures BuildTimeResponse(serial, t).Ok? ==>
              var (frames, _) := FedAll(State([], 0), max, [BuildTimeResponse(serial, t).value]);
              && |frames| == 1 && frames[0].protocol == PROTO_TIME_REQUEST && frames[0].serial == serial
              && frames[0].content == [t.year - 2000, t.month, t.day, t.hour, t.minute, t.second]
  {
    if BuildTimeResponse(serial, t).Ok? {
      var content := [t.year - 2000, t.month, t.day, t.hour, t.minute, t.second];
      PrintedReadBack(Request(PROTO_TIME_REQUEST, serial, content), max);
    }
    hide FedAll;
  }

  /** A command can be printed exactly when it is ASCII and fits, and the tracker finds in it the
  id its reply must echo and the text to run. */
  lemma CommandReadBack(serial: word, flag: nat, text: string, max: int, utf16: seq<byte> -> string)
    requires max >= 259
    ensures BuildCommand(serial, flag, text).Ok? <==> IsAscii(text) && |text| <= 243 && flag < FLAG_LIMIT
    ensures BuildCommand(serial, flag, text).Ok? ==>
              var (frames, _) := FedAll(State([], 0), max, [BuildCommand(serial, flag, text).value]);
              && |frames| == 1 && frames[0].protocol == PROTO_COMMAND && frames[0].serial == serial
              && DecodeCommandReply(PROTO_COMMAND_REPLY, frames[0].content, utf16)
              == Some(CommandReply(flag, Strip(text)))
  {
    if BuildCommand(serial, flag, text).Ok? {
      PrintedReadBack(Request(PROTO_COMMAND, serial, CommandContent(flag, text)), max);
      ClassicReplyRoundTrip(PROTO_COMMAND_REPLY, flag, text, Pack(0x0002), utf16);
      assert CommandContent(flag, text) == ClassicReply(flag, text, Pack(0x0002));
    }
    hide FedAll, DecodeCommandReply, CommandContent, ClassicReply;
  }

  // ---- What trackers send: short and extended frames ---------------------------------------

  /** What fits an extended frame. */
  type Long = r: Request | |r.content| <= 65530 witness Request(0, 0, [])

  /** An extended frame: its length takes two bytes, and the checksum covers both. */
  function PrintLong(r: Long): seq<byte> {
    var body := [r.protocol] + r.content + [r.serial / 0x100, r.serial % 0x100];
    var length: word := |r.content| + 5;
    var sized := [length / 0x100, length % 0x100] + body;
    var crc := Checksum(sized);
    [0x79, 0x79] + sized + [crc / 0x100, crc % 0x100] + [0x0D, 0x0A]
  }

  datatype Upload = Short(packet: Packet) | Extended(request: Long)

  function Sent(u: Upload): seq<byte> {
    match u case Short(p) => Print(p) case Extended(r) => PrintLong(r)
  }

  /** The frame is the one meant: the very protocol, content and serial, under the checksum it bears. */
  predicate IsMeant(f: Frame, u: Upload) {
    var r: Request := if u.Short? then u.packet else u.request;
    var n := |Sent(u)|;
    && f.protocol == r.protocol && f.content == r.content && f.serial == r.serial && f.crcOk
    && n >= 4 && [f.crc / 0x100, f.crc % 0x100] == Sent(u)[n - 4..n - 2]
  }

  lemma LongOutline(r: Long)
    ensures Outline(PrintLong(r))
  {
    hide Checksum;
    var raw := PrintLong(r);
    assert raw[..4] == [0x79, 0x79, (|r.content| + 5) / 0x100, (|r.content| + 5) % 0x100];
    assert raw[2] == raw[..4][2] && raw[3] == raw[..4][3];
    assert StartAt(raw, 0) && LengthField(raw) == |r.content| + 5;
  }

  lemma LongParses(r: Long)
    ensures |PrintLong(r)| == |r.content| + 11
    ensures CrcMatches(PrintLong(r)) && PrintLong(r)[0] == 0x79
    ensures Parse(PrintLong(r)) == Frame(r.protocol, r.content, r.serial, Parse(PrintLong(r)).crc, true)
    ensures PrintLong(r)[|r.content| + 7..|r.content| + 9] ==
      [Parse(PrintLong(r)).crc / 0x100, Parse(PrintLong(r)).crc % 0x100]
  {
    hide Checksum;
    var raw := PrintLong(r);
    var n := |raw|;
    var length: word := |r.content| + 5;
    var sized := [length / 0x100, length % 0x100] + ([r.protocol] + r.content + [r.serial / 0x100, r.serial % 0x100]);
    assert raw[2..n - 4] == sized;
    assert raw[5..n - 6] == r.content;
    assert raw[n - 6..n - 4] == [r.serial / 0x100, r.serial % 0x100];
    assert raw[n - 6] == raw[n - 6..n - 4][0] && raw[n - 5] == raw[n - 6..n - 4][1];
    var crc := Checksum(sized);
    assert raw[n - 4..n - 2] == [crc / 0x100, crc % 0x100];
    assert raw[n - 4] == raw[n - 4..n - 2][0] && raw[n - 3] == raw[n - 4..n - 2][1];
  }

  lemma ShortMeant(p: Packet)
    ensures IsMeant(FrameOf(p), Short(p))
  {
    hide Checksum;
    var raw := Print(p);
    var n := |raw|;
    assert raw[n - 4..n - 2] == Pack(FrameOf(p).crc);
  }

  /** What is sent is a block whose checksum is right, and it says what was meant. */
  lemma SentIsBlock(u: Upload)
    ensures Outline(Sent(u)) && CrcMatches(Sent(u)) && IsMeant(Parse(Sent(u)), u)
    ensures Sent(u)[0] == (if u.Short? then 0x78 else 0x79)
  {
    hide Outline, CrcMatches, Parse, FrameOf, PrintLong;
    match u
    case Short(p) =>
      PrintedIsBlock(p);
      ShortMeant(p);
    case Extended(r) =>
      LongOutline(r);
      LongParses(r);
  }

  // ---- Damage ------------------------------------------------------------------------------

  /** What two adjacent bytes, or one of them, were altered to. */
  datatype Damage = Damage(at: nat, bytes: seq<byte>)

  /** Between the length field and the stop bytes, and an alteration. */
  predicate Alters(d: Damage, raw: seq<byte>) {
    && raw != [] && 1 <= |d.bytes| <= 2 && HeadLen(raw) <= d.at && d.at + |d.bytes| <= |raw| - 2
    && d.bytes != raw[d.at..d.at + |d.bytes|]
  }

  function Altered(raw: seq<byte>, d: Damage): (bad: seq<byte>)
    requires Alters(d, raw)
    ensures |bad| == |raw|
  {
    raw[..d.at] + d.bytes + raw[d.at + |d.bytes|..]
  }

  /** The one alteration that slips through: 0x91 in the serial's low byte, and for the byte next to
  it, the first of the checksum, the one that then goes with it. */
  predicate Slips(d: Damage, raw: seq<byte>)
    requires Alters(d, raw)
  {
    && d.at == |raw| - 5 && |d.bytes| == 2
    && Xor(FromByte(raw[d.at]), FromByte(d.bytes[0])) == 0x91
    && d.bytes[1] == Checksum(raw[2..d.at] + [d.bytes[0]]) / 0x100
  }

  lemma AlteredOutline(raw: Block, d: Damage)
    requires Alters(d, raw)
    ensures Outline(Altered(raw, d))
  {
  }

  lemma BodyAltered(raw: Block, d: Damage)
    requires CrcMatches(raw) && Alters(d, raw) && d.at + |d.bytes| <= |raw| - 4
    ensures !CrcMatches(Altered(raw, d))
  {
    hide Checksum;
    var n, after := |raw|, d.at + |d.bytes|;
    TwoByteErrorsDetected(raw[2..d.at], raw[d.at..after], d.bytes, raw[after..n - 4]);
    assert raw[2..n - 4] == raw[2..d.at] + raw[d.at..after] + raw[after..n - 4];
    assert Altered(raw, d)[2..n - 4] == raw[2..d.at] + d.bytes + raw[after..n - 4];
  }

  lemma FirstAltered(raw: seq<byte>, d: Damage) returns (i: nat)
    requires Alters(d, raw)
    ensures i < |d.bytes| && d.bytes[i] != raw[d.at + i]
  {
    i := if d.bytes[0] != raw[d.at] then 0 else 1;
    assert d.bytes == if |d.bytes| == 1 then [d.bytes[0]] else [d.bytes[0], d.bytes[1]];
    assert raw[d.at..d.at + |d.bytes|] == if |d.bytes| == 1 then [raw[d.at]] else [raw[d.at], raw[d.at + 1]];
  }

  lemma ChecksumAltered(raw: Block, d: Damage)
    requires CrcMatches(raw) && Alters(d, raw) && d.at >= |raw| - 4
    ensures !CrcMatches(Altered(raw, d))
  {
    hide Checksum;
    var n, bad := |raw|, Altered(raw, d);
    assert bad[2..n - 4] == raw[2..n - 4];
    var i := FirstAltered(raw, d);
    assert bad[d.at + i] != raw[d.at + i];
  }

  lemma BothAltered(raw: Block, d: Damage)
    requires CrcMatches(raw) && Alters(d, raw) && d.at == |raw| - 5 && |d.bytes| == 2
    ensures CrcMatches(Altered(raw, d)) <==> Slips(d, raw)
  {
    hide Checksum, Xor, FromByte;
    var n, bad := |raw|, Altered(raw, d);
    var m, u, v := raw[2..n - 5], raw[n - 5], d.bytes[0];
    assert raw[2..n - 4] == m + [u] && bad[2..n - 4] == m + [v];
    assert raw[d.at..d.at + 2] == [u, raw[n - 4]] && d.bytes == [v, d.bytes[1]];
    if u != v {
      LastByteSilent(m, u, v);
    } else {
      NoDifference(FromByte(u));
    }
  }

  lemma NoDifference(a: Reg)
    ensures Xor(a, a) != 0x91
  {
  }

  /** Any alteration of a frame within two adjacent bytes, anywhere but its start, length and stop
  bytes, leaves the outline as it was, and the checksum tells unless it is that one. */
  lemma DamageSeenIff(u: Upload, d: Damage)
    requires Alters(d, Sent(u))
    ensures Outline(Altered(Sent(u), d)) && Altered(Sent(u), d)[0] == Sent(u)[0]
    ensures CrcMatches(Altered(Sent(u), d)) <==> Slips(d, Sent(u))
  {
    SentIsBlock(u);
    var raw: Block := Sent(u);
    AlteredOutline(raw, d);
    hide Sent, CrcMatches, Parse, Outline, Xor, FromByte, IsMeant;
    if d.at + |d.bytes| <= |raw| - 4 {
      BodyAltered(raw, d);
    } else if d.at >= |raw| - 4 {
      ChecksumAltered(raw, d);
    } else {
      BothAltered(raw, d);
    }
  }

  function SerialOf(u: Upload): word { if u.Short? then u.packet.serial else u.request.serial }

  /** A frame and an alteration that slips through. */
  lemma DamageUnseen(u: Upload) returns (d: Damage)
    requires SerialOf(u) % 0x100 == 0
    ensures Alters(d, Sent(u)) && CrcMatches(Altered(Sent(u), d))
  {
    hide Checksum, Xor, FromByte, Sent;
    SentIsBlock(u);
    var raw: Block := Sent(u);
    var n := |raw|;
    assert raw[n - 5] == 0 by { assert Parse(raw).serial == SerialOf(u); }
    hide Parse, IsMeant;
    var high := Checksum(raw[2..n - 5] + [0x91]) / 0x100;
    d := Damage(n - 5, [0x91, high]);
    SilentPair();
    DamageSeenIff(u, d);
  }

  /** A frame on its way, damaged or not. */
  datatype Transit = Transit(upload: Upload, damage: Option<Damage>)

  /** Damaged, but not so that it slips through. */
  predicate Noticed(t: Transit) {
    t.damage.Some? ==> Alters(t.damage.value, Sent(t.upload)) && !Slips(t.damage.value, Sent(t.upload))
  }

  function Received(t: Transit): (block: Block)
    requires Noticed(t)
    ensures block[0] == Sent(t.upload)[0]
    ensures Outcome(block) == if t.damage.None? then [Parse(Sent(t.upload))] else []
  {
    SentIsBlock(t.upload);
    if t.damage.Some? then
      DamageSeenIff(t.upload, t.damage.value);
      Altered(Sent(t.upload), t.damage.value)
    else Sent(t.upload)
  }

  function ReceivedAll(ts: seq<Transit>): (blocks: seq<Block>)
    requires forall t | t in ts :: Noticed(t)
    ensures |blocks| == |ts|
  {
    if ts == [] then [] else [Received(ts[0])] + ReceivedAll(ts[1..])
  }

  /** The frames that came through whole. */
  function Whole(ts: seq<Transit>): seq<Upload> {
    if ts == [] then [] else (if ts[0].damage.None? then [ts[0].upload] else []) + Whole(ts[1..])
  }

  function CountDamaged(ts: seq<Transit>): nat {
    if ts == [] then 0 else (if ts[0].damage.Some? then 1 else 0) + CountDamaged(ts[1..])
  }

  /** One frame for each, the one meant. */
  predicate AllMeant(frames: seq<Frame>, us: seq<Upload>) {
    |frames| == |us| && forall i | 0 <= i < |us| :: IsMeant(frames[i], us[i])
  }

  lemma MeantFirst(f: Frame, u: Upload, frames: seq<Frame>, us: seq<Upload>)
    requires IsMeant(f, u) && AllMeant(frames, us)
    ensures AllMeant([f] + frames, [u] + us)
  {
    hide IsMeant;
  }

  lemma SentMeant(t: Transit)
    requires Noticed(t) && t.damage.None?
    ensures var frames := Outcome(Received(t)); |frames| == 1 && IsMeant(frames[0], t.upload)
  {
    SentIsBlock(t.upload);
    hide Noticed, Received, Outcome, Sent, IsMeant, Parse, CrcMatches, Stopped;
  }

  lemma {:induction false} WholeAccepted(ts: seq<Transit>)
    requires forall t | t in ts :: Noticed(t)
    ensures AllMeant(Accepted(ReceivedAll(ts)), Whole(ts))
    ensures |Whole(ts)| + CountDamaged(ts) == |ts|
  {
    hide Noticed, Received, Outcome, Outline, Sent, Accepted, IsMeant, Parse, CrcMatches;
    if ts == [] {
      NothingAccepted();
    } else {
      WholeAccepted(ts[1..]);
      AcceptedFirst(Received(ts[0]), ReceivedAll(ts[1..]));
      if ts[0].damage.None? {
        SentMeant(ts[0]);
        MeantFirst(Outcome(Received(ts[0]))[0], ts[0].upload, Accepted(ReceivedAll(ts[1..])), Whole(ts[1..]));
      } else {
        assert [] + Whole(ts[1..]) == Whole(ts[1..]);
        assert [] + Accepted(ReceivedAll(ts[1..])) == Accepted(ReceivedAll(ts[1..]));
      }
    }
  }

  lemma NothingAccepted()
    ensures Accepted([]) == []
  {
  }

  lemma AcceptedFirst(b: Block, rest: seq<Block>)
    ensures Accepted([b] + rest) == Outcome(b) + Accepted(rest)
  {
    hide Outcome, Outline;
    assert ([b] + rest)[1..] == rest;
  }

  /** Room for any unfinished frame, or for any short one when all are short. */
  predicate RoomFor(max: int, ts: seq<Transit>) {
    max >= 65540 || (max >= 259 && forall t | t in ts :: t.upload.Short?)
  }

  lemma {:induction false} ReceivedShort(ts: seq<Transit>)
    requires forall t | t in ts :: Noticed(t) && t.upload.Short?
    ensures AllShort(ReceivedAll(ts))
  {
    hide Noticed, Received, Outline, Sent, IsMeant, Parse, CrcMatches;
    if ts != [] {
      SentIsBlock(ts[0].upload);
      ReceivedShort(ts[1..]);
    }
  }

  /** Recovery: any frames, short and extended, any of them damaged within two adjacent bytes as
  above, cut into any reads. All the others come out as they were meant, in order, nothing is
  left, and exactly one drop is counted for each damaged one. */
  lemma DamagedFrames(ts: seq<Transit>, max: int, chunks: seq<seq<byte>>)
    requires forall t | t in ts :: Noticed(t)
    requires RoomFor(max, ts)
    ensures Concat(chunks) == Concat(ReceivedAll(ts)) ==>
              var (frames, s) := FedAll(State([], 0), max, chunks);
              AllMeant(frames, Whole(ts)) && s == State([], CountDamaged(ts))
  {
    hide Noticed, Received, Outline, Sent, IsMeant, FedAll, Accepted, Concat, Whole, CountDamaged;
    hide ReceivedAll, AllMeant, AllShort;
    WholeAccepted(ts);
    if max < 65540 {
      ReceivedShort(ts);
    }
    if Concat(chunks) == Concat(ReceivedAll(ts)) {
      FeedBlocks(ReceivedAll(ts), max, chunks);
      assert |Accepted(ReceivedAll(ts))| == |Whole(ts)| by { SameLength(Accepted(ReceivedAll(ts)), Whole(ts)); }
    }
  }

  lemma SameLength(frames: seq<Frame>, us: seq<Upload>)
    requires AllMeant(frames, us)
    ensures |frames| == |us|
  {
  }

  function SentAll(us: seq<Upload>): seq<byte> {
    if us == [] then [] else Sent(us[0]) + SentAll(us[1..])
  }

  function Undamaged(us: seq<Upload>): (ts: seq<Transit>)
    ensures |ts| == |us| && forall i | 0 <= i < |us| :: ts[i] == Transit(us[i], None)
  {
    seq(|us|, i requires 0 <= i < |us| => Transit(us[i], None))
  }

  lemma {:induction false} UndamagedStream(us: seq<Upload>)
    ensures Concat(ReceivedAll(Undamaged(us))) == SentAll(us)
    ensures Whole(Undamaged(us)) == us && CountDamaged(Undamaged(us)) == 0
  {
    hide Sent;
    if us != [] {
      UndamagedStream(us[1..]);
      assert Undamaged(us)[1..] == Undamaged(us[1..]);
    }
  }

  /** Round trip for both kinds of frames: any list of them, in any reads, comes back as it was
  meant, in order, with nothing dropped or left. */
  lemma UploadsParse(us: seq<Upload>, max: int, chunks: seq<seq<byte>>)
    requires max >= 65540
    ensures Concat(chunks) == SentAll(us) ==>
              var (frames, s) := FedAll(State([], 0), max, chunks);
              AllMeant(frames, us) && s == State([], 0)
  {
    hide FedAll, Sent, Whole, CountDamaged, AllMeant, Concat, SentAll, ReceivedAll;
    UndamagedStream(us);
    DamagedFrames(Undamaged(us), max, chunks);
  }
}
