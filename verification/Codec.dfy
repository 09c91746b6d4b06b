/** The printer of GT06 frames, and the two directions of a command conversation. */
module Codec {
  import opened Crc
  import opened Wire
  import opened Basics
  import opened Models

  datatype Error = ValueError | StructError
  datatype Result<T> = Ok(value: T) | Err(error: Error)

  const PROTO_COMMAND: byte := 0x80
  const PROTO_COMMAND_REPLY: byte := 0x15
  const PROTO_COMMAND_REPLY_NEW: byte := 0x21
  const PROTO_TIME_REQUEST: byte := 0x8A

  function FrameBody(protocol: byte, serial: word, content: seq<byte>): seq<byte> {
    [protocol] + content + Pack(serial)
  }

  function BuildFrame(protocol: byte, serial: word, content: seq<byte>): (r: Result<seq<byte>>)
    ensures r.Ok? <==> |content| <= 250
    ensures r.Ok? ==> |r.value| == |content| + 10
  {
    var body := FrameBody(protocol, serial, content);
    var length := |body| + 2;
    if length > 0xFF then Err(ValueError)
    else
      Ok([0x78, 0x78, length] + body + Pack(Checksum([length] + body)) + [0x0D, 0x0A])
  }

  function BuildAck(protocol: byte, serial: word): (r: Result<seq<byte>>)
    ensures r.Ok?
  {
    BuildFrame(protocol, serial, [])
  }

  predicate IsByte(x: int) { 0 <= x < 256 }

  /** `t` is the server's clock, in UTC. */
  function BuildTimeResponse(serial: word, t: Clock): (r: Result<seq<byte>>)
    ensures r.Ok? <==> IsByte(t.year - 2000) && IsByte(t.month) && IsByte(t.day) && IsByte(t.hour)
                       && IsByte(t.minute) && IsByte(t.second)
  {
    if IsByte(t.year - 2000) && IsByte(t.month) && IsByte(t.day) && IsByte(t.hour)
       && IsByte(t.minute) && IsByte(t.second)
    then BuildFrame(PROTO_TIME_REQUEST, serial, [t.year - 2000, t.month, t.day, t.hour, t.minute, t.second])
    else Err(ValueError)
  }

  // ---- Commands and their replies ------------------------------------------------------

  predicate IsAscii(text: string) {
    forall c | c in text :: c < '\U{80}'
  }

  function EncodeAscii(text: string): (bytes: seq<byte>)
    requires IsAscii(text)
    ensures |bytes| == |text|
    ensures forall i | 0 <= i < |text| :: bytes[i] == text[i] as int
  {
    if text == [] then []
    else
      assert text[0] in text && forall c | c in text[1..] :: c in text;
      [text[0] as int] + EncodeAscii(text[1..])
  }

  /** A byte that is not ASCII reads as the replacement character. */
  function DecodeAscii(bytes: seq<byte>): (text: string)
    ensures |text| == |bytes|
    ensures forall i | 0 <= i < |bytes| :: text[i] == if bytes[i] < 0x80 then bytes[i] as char else '\U{FFFD}'
  {
    if bytes == [] then []
    else [if bytes[0] < 0x80 then bytes[0] as char else '\U{FFFD}'] + DecodeAscii(bytes[1..])
  }

  lemma AsciiRoundTrip(text: string)
    requires IsAscii(text)
    ensures DecodeAscii(EncodeAscii(text)) == text
  {
    forall i | 0 <= i < |text| ensures DecodeAscii(EncodeAscii(text))[i] == text[i] {
      assert text[i] in text;
    }
  }

  const FLAG_LIMIT := 0x1_0000_0000

  function PackFlag(v: nat): seq<byte>
    requires v < FLAG_LIMIT
  {
    Pack(v / 0x10000) + Pack(v % 0x10000)
  }

  function UnpackFlag(b: seq<byte>): (v: nat)
    requires |b| == 4
    ensures v < FLAG_LIMIT
  {
    0x10000 * Unpack(b[0], b[1]) + Unpack(b[2], b[3])
  }

  lemma FlagRoundTrip(v: nat)
    requires v < FLAG_LIMIT
    ensures UnpackFlag(PackFlag(v)) == v
  {
    var h, l := v / 0x10000, v % 0x10000;
    assert PackFlag(v) == [h / 0x100, h % 0x100, l / 0x100, l % 0x100];
  }

  function CommandContent(flag: nat, command: string): seq<byte>
    requires flag < FLAG_LIMIT && IsAscii(command) && 4 + |command| <= 0xFF
  {
    [4 + |command|] + PackFlag(flag) + EncodeAscii(command) + Pack(0x0002)
  }

  function BuildCommand(serial: word, flag: nat, command: string): (r: Result<seq<byte>>)
    ensures r.Ok? <==> IsAscii(command) && |command| <= 243 && flag < FLAG_LIMIT
  {
    if !IsAscii(command) then Err(ValueError)
    else if 4 + |command| > 0xFF then Err(ValueError)
    else if flag >= FLAG_LIMIT then Err(StructError)
    else BuildFrame(PROTO_COMMAND, serial, CommandContent(flag, command))
  }

  /** What str.strip() takes away. */
  predicate IsSpace(c: char) {
    || '\U{09}' <= c <= '\U{0D}' || '\U{1C}' <= c <= '\U{20}' || c == '\U{85}' || c == '\U{A0}'
    || c == '\U{1680}' || '\U{2000}' <= c <= '\U{200A}' || c == '\U{2028}' || c == '\U{2029}'
    || c == '\U{202F}' || c == '\U{205F}' || c == '\U{3000}'
  }

  function StripLeft(s: string, p: char -> bool): string {
    if s != [] && p(s[0]) then StripLeft(s[1..], p) else s
  }

  function StripRight(s: string, p: char -> bool): string {
    if s != [] && p(s[|s| - 1]) then StripRight(s[..|s| - 1], p) else s
  }

  function Strip(s: string): string {
    var t := StripRight(StripLeft(s, c => c == '\0'), c => c == '\0');
    StripRight(StripLeft(t, IsSpace), IsSpace)
  }

  datatype CommandReply = CommandReply(serverFlag: nat, text: string)

  /** `utf16` stands for the library's UTF-16BE decoder. */
  function DecodeCommandReply(protocol: byte, content: seq<byte>, utf16: seq<byte> -> string): (r: Option<CommandReply>)
    ensures r.Some? <==> |content| >= 5
  {
    if |content| < 5 then None
    else if protocol == PROTO_COMMAND_REPLY_NEW then
      var raw := content[5..];
      var text := if content[4] == 0x02 then utf16(raw) else DecodeAscii(raw);
      Some(CommandReply(UnpackFlag(content[0..4]), Strip(text)))
    else
      var infoLen: int := content[0];
      var raw := if infoLen >= 4 then content[5..Min(|content|, Max(5, 1 + infoLen))] else content[5..];
      Some(CommandReply(UnpackFlag(content[1..5]), Strip(DecodeAscii(raw))))
  }

  /** A tracker's answer in the classic layout, with or without the language suffix. */
  function ClassicReply(flag: nat, text: string, suffix: seq<byte>): seq<byte>
    requires flag < FLAG_LIMIT && IsAscii(text) && 4 + |text| <= 0xFF
  {
    [4 + |text|] + PackFlag(flag) + EncodeAscii(text) + suffix
  }

  /** A tracker's answer in the newer layout. */
  function NewReply(flag: nat, encoding: byte, raw: seq<byte>): seq<byte>
    requires flag < FLAG_LIMIT
  {
    PackFlag(flag) + [encoding] + raw
  }

  /** The classic reply finds its command and its text whatever follows the text. */
  lemma ClassicReplyRoundTrip(protocol: byte, flag: nat, text: string, suffix: seq<byte>, utf16: seq<byte> -> string)
    requires protocol != PROTO_COMMAND_REPLY_NEW
    requires flag < FLAG_LIMIT && IsAscii(text) && 4 + |text| <= 0xFF
    ensures DecodeCommandReply(protocol, ClassicReply(flag, text, suffix), utf16)
         == Some(CommandReply(flag, Strip(text)))
  {
    hide Strip;
    var content := ClassicReply(flag, text, suffix);
    assert content[1..5] == PackFlag(flag);
    FlagRoundTrip(flag);
    assert content[5..5 + |text|] == EncodeAscii(text);
    AsciiRoundTrip(text);
  }

  /** Whatever its first byte counts: four or more is the flag and that much text, less says nothing
  and all that follows is text. */
  lemma ClassicReplyText(protocol: byte, length: byte, flag: nat, raw: seq<byte>, utf16: seq<byte> -> string)
    requires protocol != PROTO_COMMAND_REPLY_NEW && flag < FLAG_LIMIT
    ensures DecodeCommandReply(protocol, [length] + PackFlag(flag) + raw, utf16)
         == Some(CommandReply(flag, Strip(DecodeAscii(
              if length < 4 || |raw| + 4 <= length as int then raw else raw[..length - 4]))))
  {
    hide Strip, DecodeAscii, UnpackFlag, PackFlag;
    FlagRoundTrip(flag);
    FlagIsFour(flag);
    var content := [length] + PackFlag(flag) + raw;
    assert content[0] == length && content[1..5] == PackFlag(flag) && content[5..] == raw;
    if length >= 4 {
      TextSlice(content, raw, length);
    }
  }

  lemma FlagIsFour(flag: nat)
    requires flag < FLAG_LIMIT
    ensures |PackFlag(flag)| == 4
  {
  }

  lemma TextSlice(content: seq<byte>, raw: seq<byte>, length: byte)
    requires |content| == 5 + |raw| && content[5..] == raw && length >= 4
    ensures content[5..Min(|content|, Max(5, 1 + length as int))]
         == if |raw| + 4 <= length as int then raw else raw[..length - 4]
  {
    if |raw| + 4 <= length as int {
      assert content[5..|content|] == raw;
    } else {
      assert content[5..1 + length as int] == content[5..][..length - 4];
    }
  }

  lemma {:induction false} StripLeftParts(s: string, p: char -> bool) returns (n: nat)
    ensures n <= |s| && StripLeft(s, p) == s[n..]
    ensures forall c | c in s[..n] :: p(c)
    ensures n < |s| ==> !p(s[n])
  {
    if s != [] && p(s[0]) {
      var m := StripLeftParts(s[1..], p);
      n := m + 1;
      assert s[..n] == [s[0]] + s[1..][..m] && s[1..][m..] == s[n..];
    } else {
      n := 0;
      assert s[0..] == s;
    }
  }

  lemma {:induction false} StripRightParts(s: string, p: char -> bool) returns (n: nat)
    ensures n <= |s| && StripRight(s, p) == s[..n]
    ensures forall c | c in s[n..] :: p(c)
    ensures n > 0 ==> !p(s[n - 1])
  {
    if s != [] && p(s[|s| - 1]) {
      n := StripRightParts(s[..|s| - 1], p);
      assert s[n..] == s[..|s| - 1][n..] + [s[|s| - 1]] && s[..|s| - 1][..n] == s[..n];
    } else {
      n := |s|;
      assert s[..|s|] == s;
    }
  }

  /** One strip: what goes are the leading and trailing characters of the kind, all of them. */
  lemma StripParts(s: string, p: char -> bool) returns (before: string, after: string)
    ensures var r := StripRight(StripLeft(s, p), p);
      && s == before + r + after
      && (forall c | c in before + after :: p(c))
      && (r != [] ==> !p(r[0]) && !p(r[|r| - 1]))
  {
    var n := StripLeftParts(s, p);
    var t := s[n..];
    var m := StripRightParts(t, p);
    before, after := s[..n], t[m..];
    assert s == before + t[..m] + after;
    assert forall c :: c in before + after <==> c in before || c in after;
  }

  /** What the text of a reply loses: first the zero bytes around it, then the spaces, no more. */
  lemma StripExactly(s: string) returns (zeros: string, spaces: string, more: string, last: string)
    ensures s == zeros + (spaces + Strip(s) + more) + last
    ensures forall c | c in zeros + last :: c == '\0'
    ensures forall c | c in spaces + more :: IsSpace(c)
    ensures Strip(s) != [] ==> !IsSpace(Strip(s)[0]) && !IsSpace(Strip(s)[|Strip(s)| - 1])
    ensures var inner := spaces + Strip(s) + more;
      inner != [] ==> inner[0] != '\0' && inner[|inner| - 1] != '\0'
  {
    zeros, last := StripParts(s, c => c == '\0');
    var t := StripRight(StripLeft(s, c => c == '\0'), c => c == '\0');
    spaces, more := StripParts(t, IsSpace);
  }

  lemma NewReplyRoundTrip(flag: nat, encoding: byte, raw: seq<byte>, utf16: seq<byte> -> string)
    requires flag < FLAG_LIMIT
    ensures DecodeCommandReply(PROTO_COMMAND_REPLY_NEW, NewReply(flag, encoding, raw), utf16)
         == Some(CommandReply(flag, Strip(if encoding == 0x02 then utf16(raw) else DecodeAscii(raw))))
  {
    hide Strip, DecodeAscii;
    var content := NewReply(flag, encoding, raw);
    assert content[0..4] == PackFlag(flag);
    assert content[5..] == raw;
    FlagRoundTrip(flag);
  }
}
