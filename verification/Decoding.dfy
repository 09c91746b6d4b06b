/** What the packets of a tracker say: login, location, alarm and heartbeat. */
module Decoding {
  import opened Basics
  import opened Models
  import opened Crc
  import opened Wire
  import opened Codec

  const PROTO_LOCATION: byte := 0x12
  const PROTO_ALARM: byte := 0x16
  const PROTO_LOCATION_ACC: byte := 0x22
  const LOCATION_MIN_LEN := 18
  const CELL_LEN := 8
  const COORD_SCALE := 1_800_000.0
  const BIT_NORTH := 0x0400
  const BIT_WEST := 0x0800
  const BIT_GPS_FIXED := 0x1000
  const BIT_ACC_ON := 0x02

  /** Whether a flag, a power of two, is set. */
  predicate Has(value: nat, bit: nat)
    requires bit > 0
  {
    value / bit % 2 == 1
  }

  // ---- Login ---------------------------------------------------------------------------

  /** One hexadecimal digit that is also decimal. */
  function Digit(nibble: nat): char
    requires nibble < 10
  {
    '0' + nibble as char
  }

  predicate IsBcd(bytes: seq<byte>) {
    forall b | b in bytes :: b / 16 < 10 && b % 16 < 10
  }

  function Digits(bytes: seq<byte>): (text: string)
    requires IsBcd(bytes)
    ensures |text| == 2 * |bytes|
  {
    if bytes == [] then "" else
      assert bytes[0] in bytes && forall b | b in bytes[1..] :: b in bytes;
      [Digit(bytes[0] / 16), Digit(bytes[0] % 16)] + Digits(bytes[1..])
  }

  function DecodeLogin(content: seq<byte>): (id: Option<string>)
    ensures id.Some? <==> |content| >= 8 && IsBcd(content[..8])
    ensures id.Some? ==> 15 <= |id.value| <= 16
  {
    if |content| < 8 || !IsBcd(content[..8]) then None
    else
      var digits := Digits(content[..8]);
      Some(if digits[0] == '0' then digits[1..] else digits)
  }

  predicate IsNumber(text: string) {
    forall c | c in text :: '0' <= c <= '9'
  }

  function Pair(high: char, low: char): (b: byte)
    requires '0' <= high <= '9' && '0' <= low <= '9'
    ensures b / 16 < 10 && b % 16 < 10 && Digit(b / 16) == high && Digit(b % 16) == low
  {
    var h, l := high as int - 48, low as int - 48;
    assert (16 * h + l) / 16 == h && (16 * h + l) % 16 == l;
    assert '0' as int == 48;
    16 * h + l
  }

  /** A tracker packs its identity two digits to a byte. */
  function PackDigits(text: string): (bytes: seq<byte>)
    requires IsNumber(text) && |text| % 2 == 0
    ensures |bytes| == |text| / 2 && IsBcd(bytes)
  {
    if text == "" then []
    else
      assert text[0] in text && text[1] in text;
      assert forall c | c in text[2..] :: c in text;
      [Pair(text[0], text[1])] + PackDigits(text[2..])
  }

  lemma {:induction false} DigitsPack(text: string)
    requires IsNumber(text) && |text| % 2 == 0
    ensures Digits(PackDigits(text)) == text
  {
    if text != "" {
      assert text[0] in text && text[1] in text;
      assert forall c | c in text[2..] :: c in text;
      DigitsPack(text[2..]);
      hide Pair, Digit;
      assert PackDigits(text)[1..] == PackDigits(text[2..]);
      assert text == [text[0], text[1]] + text[2..];
    }
  }

  /** A fifteen-digit identity, padded with one zero, is read back whole: a second leading
  zero is part of it. */
  lemma LoginRoundTrip(imei: string, rest: seq<byte>)
    requires |imei| == 15 && IsNumber(imei)
    ensures IsNumber("0" + imei) && DecodeLogin(PackDigits("0" + imei) + rest) == Some(imei)
  {
    var padded := "0" + imei;
    DigitsPack(padded);
    assert (PackDigits(padded) + rest)[..8] == PackDigits(padded);
  }

  /** Sixteen digits that do not begin with a zero are an identity as they are. */
  lemma LoginWhole(text: string, rest: seq<byte>)
    requires |text| == 16 && IsNumber(text) && text[0] != '0'
    ensures DecodeLogin(PackDigits(text) + rest) == Some(text)
  {
    DigitsPack(text);
    assert (PackDigits(text) + rest)[..8] == PackDigits(text);
  }

  // ---- The serving cell ------------------------------------------------------------------

  function UnpackMany(bytes: seq<byte>): nat {
    if bytes == [] then 0 else 0x100 * UnpackMany(bytes[..|bytes| - 1]) + bytes[|bytes| - 1]
  }

  /** The cell and how many bytes it took; none if it is cut short, or all zero. */
  function DecodeCell(data: seq<byte>): (r: (Option<Cell>, nat))
    ensures r.1 <= |data|
  {
    if |data| < 2 then (None, 0)
    else
      var mccWord := Unpack(data[0], data[1]);
      var mncLen := if mccWord >= 0x8000 then 2 else 1;
      var mcc := mccWord % 0x8000;
      var consumed := CELL_LEN - 1 + mncLen;
      if |data| < consumed then (None, 0)
      else
        var mnc := UnpackMany(data[2..2 + mncLen]);
        var lac := Unpack(data[2 + mncLen], data[3 + mncLen]);
        var cellId := UnpackMany(data[4 + mncLen..consumed]);
        (if mcc == 0 && lac == 0 && cellId == 0 then None else Some(Cell(mcc, mnc, lac, cellId)), consumed)
  }

  predicate CellFits(cell: Cell, wide: bool) {
    && 0 <= cell.mcc < 0x8000 && 0 <= cell.mnc < (if wide then 0x1_0000 else 0x100)
    && 0 <= cell.lac < 0x1_0000 && 0 <= cell.cellId < 0x100_0000
  }

  function EncodeCell(cell: Cell, wide: bool): seq<byte>
    requires CellFits(cell, wide)
  {
    Pack(cell.mcc + if wide then 0x8000 else 0)
    + (if wide then Pack(cell.mnc) else [cell.mnc])
    + Pack(cell.lac)
    + [cell.cellId / 0x1_0000] + Pack(cell.cellId % 0x1_0000)
  }

  lemma UnpackShort(a: byte, b: byte, c: byte)
    ensures UnpackMany([a]) == a
    ensures UnpackMany([a, b]) == 0x100 * a + b
    ensures UnpackMany([a, b, c]) == 0x1_0000 * a + 0x100 * b + c
  {
    assert [a][..0] == [] && [a, b][..1] == [a] && [a, b, c][..2] == [a, b];
  }

  lemma CellRoundTrip(cell: Cell, wide: bool, rest: seq<byte>)
    requires CellFits(cell, wide)
    ensures DecodeCell(EncodeCell(cell, wide) + rest)
         == (if cell.mcc == 0 && cell.lac == 0 && cell.cellId == 0 then None else Some(cell), if wide then 9 else 8)
  {
    var data := EncodeCell(cell, wide) + rest;
    var n := if wide then 2 else 1;
    var high, low := cell.cellId / 0x1_0000, cell.cellId % 0x1_0000;
    assert data[2..2 + n] == if wide then Pack(cell.mnc) else [cell.mnc];
    assert data[4 + n..7 + n] == [high, low / 0x100, low % 0x100];
    UnpackShort(high, low / 0x100, low % 0x100);
    if wide { UnpackShort(cell.mnc / 0x100, cell.mnc % 0x100, 0); } else { UnpackShort(cell.mnc, 0, 0); }
  }

  // ---- Location, alarm and heartbeat -------------------------------------------------------

  function DaysIn(year: int, month: int): int
  {
    if month == 2 then (if year % 4 == 0 && (year % 100 != 0 || year % 400 == 0) then 29 else 28)
    else if month in {4, 6, 9, 11} then 30
    else 31
  }

  predicate IsDate(t: Clock) {
    && 1 <= t.month <= 12 && 1 <= t.day <= DaysIn(t.year, t.month)
    && 0 <= t.hour < 24 && 0 <= t.minute < 60 && 0 <= t.second < 60
  }

  predicate Leap(year: int) { year % 4 == 0 && (year % 100 == 0 ==> year % 400 == 0) }

  /** The length of a month is the calendar's. */
  lemma DaysExactly(year: int, month: int)
    requires 1 <= month <= 12
    ensures DaysIn(year, month)
         == [31, if Leap(year) then 29 else 28, 31, 30, 31, 30, 31, 31, 30, 31, 30, 31][month - 1]
  {
  }

  /** A time is read exactly when it is one: its six bytes, the year counted from 2000. */
  function DecodeTimestamp(content: seq<byte>): (at: Option<Clock>)
    requires |content| >= 6
    ensures at.Some? <==>
              && 1 <= content[1] <= 12 && 1 <= content[2] <= DaysIn(2000 + content[0] as int, content[1])
              && content[3] < 24 && content[4] < 60 && content[5] < 60
  {
    var t := Clock(2000 + content[0] as int, content[1], content[2], content[3], content[4], content[5]);
    if IsDate(t) then Some(t) else None
  }

  predicate IgnitionBit(terminalInfo: byte) { Has(terminalInfo, BIT_ACC_ON) }

  function DecodeHeartbeat(content: seq<byte>, deviceId: string): (status: Option<StatusEvent>)
    ensures status.Some? <==> content != []
    ensures status.Some? ==> status.value.deviceId == deviceId && status.value.ignition == (content[0] / 2 % 2 == 1)
  {
    if content == [] then None else Some(StatusEvent(deviceId, IgnitionBit(content[0])))
  }

  /** The cell and the ignition that follow the first 18 bytes. */
  function DecodeTail(content: seq<byte>, protocol: byte): (Option<Cell>, Option<bool>)
    requires |content| >= LOCATION_MIN_LEN
  {
    var tail := content[LOCATION_MIN_LEN..];
    if protocol != PROTO_ALARM then
      var (cell, consumed) := DecodeCell(tail);
      var told := protocol == PROTO_LOCATION_ACC && consumed > 0 && |tail| > consumed;
      (cell, if told then Some(tail[consumed] != 0) else None)
    else if tail == [] then (None, None)
    else
      var lbsLen: int := tail[0];
      var cell := if lbsLen > 0 then DecodeCell(tail[1..Max(1, Min(|tail|, lbsLen))]).0 else None;
      var statusAt := Max(lbsLen, 1);
      (cell, if |tail| > statusAt then Some(IgnitionBit(tail[statusAt])) else None)
  }

  function Degrees(raw: nat, negative: bool): real {
    if negative then -(raw as real / COORD_SCALE) else raw as real / COORD_SCALE
  }

  predicate OnEarth(latitude: real, longitude: real) {
    -90.0 <= latitude <= 90.0 && -180.0 <= longitude <= 180.0
  }

  function BigEndian(a: int, b: int, c: int, d: int): int {
    0x100_0000 * a + 0x1_0000 * b + 0x100 * c + d
  }

  /** Long enough, and within 90 degrees of the equator and 180 of the meridian; a degree is
  1,800,000 units. */
  predicate OnTheMap(content: seq<byte>) {
    && |content| >= 18
    && BigEndian(content[7], content[8], content[9], content[10]) <= 162_000_000
    && BigEndian(content[11], content[12], content[13], content[14]) <= 324_000_000
  }

  /** What a position says of the ignition: in an ACC packet the byte after the cell, which is eight
  bytes or, announced by its top bit, nine; in an alarm bit 1 of the byte after the counted cell. */
  function ToldIgnition(content: seq<byte>, protocol: byte): Option<bool> {
    if !OnTheMap(content) || |content| == 18 then None
    else if protocol == 0x22 then
      var at := if content[18] >= 0x80 then 27 else 26;
      if |content| > at then Some(content[at] != 0) else None
    else if protocol == 0x16 then
      var at := if content[18] == 0 then 19 else 18 + content[18] as int;
      if |content| > at then Some(content[at] / 2 % 2 == 1) else None
    else None
  }

  function DecodeLocation(content: seq<byte>, deviceId: string, protocol: byte): (event: Option<LocationEvent>)
    ensures event.Some? <==> OnTheMap(content)
    ensures event.Some? ==> event.value.deviceId == deviceId && OnEarth(event.value.latitude, event.value.longitude)
    ensures event.Some? && event.value.gpsFixed ==> event.value.satellites > 0
    ensures event.Some? ==> event.value.eventType == "location"
  {
    UnitsFit(content);
    if |content| < LOCATION_MIN_LEN then None
    else
      var satellites := content[6] % 16;
      var flags := Unpack(content[16], content[17]);
      var latitude := Degrees(UnpackFlag(content[7..11]), !Has(flags, BIT_NORTH));
      var longitude := Degrees(UnpackFlag(content[11..15]), Has(flags, BIT_WEST));
      if !OnEarth(latitude, longitude) then None
      else
        var (cell, ignition) := DecodeTail(content, protocol);
        Some(LocationEvent(
          deviceId, latitude, longitude, content[15], flags % 0x400, Has(flags, BIT_GPS_FIXED) && satellites > 0,
          satellites, DecodeTimestamp(content), "location", cell, ignition))
  }

  lemma DegreesFit(raw: nat, negative: bool)
    ensures -90.0 <= Degrees(raw, negative) <= 90.0 <==> raw <= 162_000_000
    ensures -180.0 <= Degrees(raw, negative) <= 180.0 <==> raw <= 324_000_000
  {
  }

  lemma UnitsFit(content: seq<byte>)
    ensures forall south, west | |content| >= 18 ::
      OnEarth(Degrees(UnpackFlag(content[7..11]), south), Degrees(UnpackFlag(content[11..15]), west))
      <==> OnTheMap(content)
  {
    if |content| >= 18 {
      FlagBytes(content, 7);
      FlagBytes(content, 11);
      forall south, west
        ensures OnEarth(Degrees(UnpackFlag(content[7..11]), south), Degrees(UnpackFlag(content[11..15]), west))
           <==> OnTheMap(content)
      {
        DegreesFit(UnpackFlag(content[7..11]), south);
        DegreesFit(UnpackFlag(content[11..15]), west);
      }
    }
  }

  lemma FlagBytes(content: seq<byte>, at: nat)
    requires at + 4 <= |content|
    ensures UnpackFlag(content[at..at + 4])
         == BigEndian(content[at], content[at + 1], content[at + 2], content[at + 3])
  {
  }

  /** A position tells the ignition exactly where its bytes say so. */
  lemma IgnitionTold(content: seq<byte>, deviceId: string, protocol: byte)
    requires protocol == 0x12 || protocol == 0x22 || protocol == 0x16
    ensures var event := DecodeLocation(content, deviceId, protocol);
      event.Some? ==> event.value.ignition == ToldIgnition(content, protocol)
  {
    hide UnpackMany, Unpack, UnpackFlag, Degrees, OnEarth, DecodeTimestamp, OnTheMap;
    if OnTheMap(content) && |content| > 18 {
      OnTheMapIsLong(content);
      TailTold(content, protocol);
    } else {
      OnTheMapIsLong(content);
    }
  }

  lemma OnTheMapIsLong(content: seq<byte>)
    ensures OnTheMap(content) ==> |content| >= 18
  {
  }

  lemma TailTold(content: seq<byte>, protocol: byte)
    requires |content| > 18 && OnTheMap(content)
    requires protocol == 0x12 || protocol == 0x22 || protocol == 0x16
    ensures DecodeTail(content, protocol).1 == ToldIgnition(content, protocol)
  {
    hide UnpackMany, OnTheMap;
    var tail := content[LOCATION_MIN_LEN..];
    assert tail[0] == content[18];
    assert |tail| >= 2 ==> (Unpack(tail[0], tail[1]) >= 0x8000 <==> content[18] >= 0x80);
  }

  /** What a tracker puts into the first 18 bytes. */
  datatype Report = Report(
    at: Clock, satellites: nat, latitude: nat, longitude: nat, speed: byte, course: nat,
    north: bool, west: bool, fixed: bool)

  predicate ReportFits(r: Report) {
    && IsDate(r.at) && 2000 <= r.at.year < 2256 && r.satellites < 16 && r.course < 0x400
    && r.latitude < FLAG_LIMIT && r.longitude < FLAG_LIMIT
  }

  function Flags(r: Report): (flags: word)
    requires r.course < 0x400
  {
    r.course + (if r.north then 0x0400 else 0) + (if r.west then 0x0800 else 0) + (if r.fixed then 0x1000 else 0)
  }

  lemma FlagsRead(r: Report)
    requires r.course < 0x400
    ensures Has(Flags(r), BIT_NORTH) == r.north && Has(Flags(r), BIT_WEST) == r.west
    ensures Has(Flags(r), BIT_GPS_FIXED) == r.fixed && Flags(r) % 0x400 == r.course
  {
  }

  function Head(r: Report): (bytes: seq<byte>)
    requires ReportFits(r)
    ensures |bytes| == LOCATION_MIN_LEN
  {
    [r.at.year - 2000, r.at.month, r.at.day, r.at.hour, r.at.minute, r.at.second, 0xC0 + r.satellites]
    + PackFlag(r.latitude) + PackFlag(r.longitude) + [r.speed] + Pack(Flags(r))
  }

  lemma HeadBytes(r: Report, rest: seq<byte>)
    requires ReportFits(r)
    ensures var content := Head(r) + rest;
      && |content| >= LOCATION_MIN_LEN
      && content[..7] == [r.at.year - 2000, r.at.month, r.at.day, r.at.hour, r.at.minute, r.at.second,
            0xC0 + r.satellites]
      && content[7..11] == PackFlag(r.latitude) && content[11..15] == PackFlag(r.longitude)
      && content[15] == r.speed && Unpack(content[16], content[17]) == Flags(r)
  {
    hide Flags, PackFlag, IsDate;
    FlagLength(r.latitude);
    FlagLength(r.longitude);
    var content := Head(r) + rest;
    assert content[16] == Pack(Flags(r))[0] && content[17] == Pack(Flags(r))[1];
  }

  lemma FlagLength(v: nat)
    requires v < FLAG_LIMIT
    ensures |PackFlag(v)| == 4
  {
  }

  lemma TimestampRead(r: Report, content: seq<byte>)
    requires ReportFits(r) && |content| >= 7
    requires content[..7] == [r.at.year - 2000, r.at.month, r.at.day, r.at.hour, r.at.minute, r.at.second,
          0xC0 + r.satellites]
    ensures DecodeTimestamp(content) == Some(r.at) && content[6] % 16 == r.satellites
  {
    assert forall i | 0 <= i < 7 :: content[i] == content[..7][i];
  }

  /** The first 18 bytes are read back field by field, whatever follows; a position off the
  map is refused; and a fix counts only with satellites in view. */
  lemma LocationRoundTrip(r: Report, rest: seq<byte>, deviceId: string, protocol: byte)
    requires ReportFits(r)
    ensures var latitude, longitude := Degrees(r.latitude, !r.north), Degrees(r.longitude, r.west);
      var (cell, ignition) := DecodeTail(Head(r) + rest, protocol);
      DecodeLocation(Head(r) + rest, deviceId, protocol)
      == if !OnEarth(latitude, longitude) then None
         else Some(LocationEvent(deviceId, latitude, longitude, r.speed, r.course, r.fixed && r.satellites > 0,
                                 r.satellites, Some(r.at), "location", cell, ignition))
  {
    HeadBytes(r, rest);
    FlagsRead(r);
    FlagRoundTrip(r.latitude);
    FlagRoundTrip(r.longitude);
    TimestampRead(r, Head(r) + rest);
    hide *;
    LocationRead(r, Head(r) + rest, deviceId, protocol);
  }

  /** A coordinate is in units of a degree's 1,800,000th part, south and west negative. */
  lemma DegreesExactly(raw: nat, negative: bool)
    ensures Degrees(raw, negative) * 1_800_000.0 == if negative then -(raw as real) else raw as real
  {
  }

  lemma LocationRead(r: Report, content: seq<byte>, deviceId: string, protocol: byte)
    requires |content| >= LOCATION_MIN_LEN && r.course < 0x400
    requires UnpackFlag(content[7..11]) == r.latitude && UnpackFlag(content[11..15]) == r.longitude
    requires content[15] == r.speed && Unpack(content[16], content[17]) == Flags(r)
    requires Has(Flags(r), BIT_NORTH) == r.north && Has(Flags(r), BIT_WEST) == r.west
    requires Has(Flags(r), BIT_GPS_FIXED) == r.fixed && Flags(r) % 0x400 == r.course
    requires DecodeTimestamp(content) == Some(r.at) && content[6] % 16 == r.satellites
    ensures var latitude, longitude := Degrees(r.latitude, !r.north), Degrees(r.longitude, r.west);
      var (cell, ignition) := DecodeTail(content, protocol);
      DecodeLocation(content, deviceId, protocol)
      == if !OnEarth(latitude, longitude) then None
         else Some(LocationEvent(deviceId, latitude, longitude, r.speed, r.course, r.fixed && r.satellites > 0,
                                 r.satellites, Some(r.at), "location", cell, ignition))
  {
    hide Flags, Has, Unpack, UnpackFlag, Degrees, OnEarth, DecodeTail, DecodeTimestamp;
  }

  lemma CellLength(cell: Cell, wide: bool)
    requires CellFits(cell, wide)
    ensures |EncodeCell(cell, wide)| == if wide then 9 else 8
  {
  }

  lemma BitOf(status: byte)
    ensures IgnitionBit(status) <==> status / 2 % 2 == 1
  {
  }

  /** Where the ignition is found: after the cell in an ACC packet, after the length-prefixed
  cell in an alarm, nowhere in a plain location packet. */
  lemma IgnitionFound(r: Report, cell: Cell, wide: bool, status: byte, rest: seq<byte>)
    requires ReportFits(r) && CellFits(cell, wide)
    ensures var read := if cell.mcc == 0 && cell.lac == 0 && cell.cellId == 0 then None else Some(cell);
      var lbs := |EncodeCell(cell, wide)| + 1;
      && DecodeTail(Head(r) + EncodeCell(cell, wide) + [status] + rest, 0x22) == (read, Some(status != 0))
      && DecodeTail(Head(r) + EncodeCell(cell, wide) + [status] + rest, 0x12) == (read, None)
      && DecodeTail(Head(r) + [lbs] + EncodeCell(cell, wide) + [status] + rest, 0x16)
      == (read, Some(status / 2 % 2 == 1))
  {
    hide DecodeCell, EncodeCell, IgnitionBit, Head;
    var body := EncodeCell(cell, wide);
    CellLength(cell, wide);
    CellRoundTrip(cell, wide, []);
    assert body + [] == body;
    CellRoundTrip(cell, wide, [status] + rest);
    BitOf(status);
    var plain := Head(r) + body + [status] + rest;
    assert plain[LOCATION_MIN_LEN..] == body + ([status] + rest);
    var alarm := Head(r) + [|body| + 1] + body + [status] + rest;
    var tail := alarm[LOCATION_MIN_LEN..];
    assert tail == [|body| + 1] + body + [status] + rest;
    assert tail[1..|body| + 1] == body;
  }
}
