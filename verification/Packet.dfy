/** The wire format of a packet: a parser and a printer that undo each other. */
module Packet {
  import opened Bytes
  import opened Bits

  const ROUTE_TYPE_TRANSPORT_FLOOD := 0x00
  const ROUTE_TYPE_FLOOD := 0x01
  const ROUTE_TYPE_DIRECT := 0x02
  const ROUTE_TYPE_TRANSPORT_DIRECT := 0x03

  const PAYLOAD_TYPE_TXT_MSG := 0x02
  const PAYLOAD_TYPE_ACK := 0x03
  const PAYLOAD_TYPE_GRP_TXT := 0x05
  const PAYLOAD_TYPE_PATH := 0x08
  const PAYLOAD_TYPE_TRACE := 0x09

  const MAX_PATH_SIZE := 64
  const MAX_PACKET_PAYLOAD := 184
  const MAX_TRANS_UNIT := 255

  // ---- bit fields, as digits ----

  function RouteType(header: nat): nat { header % 4 }
  function PayloadType(header: nat): nat { header / 4 % 16 }
  function PayloadVer(header: nat): nat { header / 64 % 4 }
  function HashCount(raw: nat): nat { raw % 64 }
  function HashSize(raw: nat): nat { raw / 64 + 1 }

  /** The masks and shifts of the source read these digits. */
  lemma FieldsAreMasks(header: nat, raw: nat)
    ensures And(header, 0x03) == RouteType(header) && And(header / Pow2(2), 0x0F) == PayloadType(header)
    ensures And(header / Pow2(6), 0x03) == PayloadVer(header) && And(raw, 63) == HashCount(raw)
    ensures raw / Pow2(6) + 1 == HashSize(raw)
  {
    MaskIsLow(header, 2);
    MaskIsLow(header / 4, 4);
    MaskIsLow(header / 64, 2);
    MaskIsLow(raw, 6);
  }

  function HasTransportCodes(header: nat): bool {
    RouteType(header) == ROUTE_TYPE_TRANSPORT_FLOOD || RouteType(header) == ROUTE_TYPE_TRANSPORT_DIRECT
  }

  function PathByteLen(raw: nat): nat { HashCount(raw) * HashSize(raw) }

  function IsValidPathLen(raw: nat): bool {
    HashSize(raw) != 4 && PathByteLen(raw) <= MAX_PATH_SIZE
  }

  function MakeHeader(routeType: nat, payloadType: nat, payloadVer: nat): nat {
    Or(Or(And(routeType, 0x03), And(payloadType, 0x0F) * Pow2(2)), And(payloadVer, 0x03) * Pow2(6))
  }

  function EncodePathLen(hashCount: nat, hashSize: nat): nat
    requires hashSize > 0
  {
    Or((hashSize - 1) * Pow2(6), And(hashCount, 63))
  }

  lemma HeaderIsSum(r: nat, t: nat, v: nat)
    ensures MakeHeader(r, t, v) == r % 4 + t % 16 * 4 + v % 4 * 64
  {
    MaskIsLow(r, 2);
    MaskIsLow(t, 4);
    MaskIsLow(v, 2);
    assert Pow2(2) == 4 && Pow2(4) == 16 && Pow2(6) == 64;
    OrOfShifted(r % 4, t % 16, 2);
    OrOfShifted(r % 4 + t % 16 * 4, v % 4, 6);
  }

  lemma DigitsOfSum(a: nat, b: nat, c: nat)
    requires a < 4 && b < 16 && c < 4
    ensures var h := a + b * 4 + c * 64; h < 256 && h % 4 == a && h / 4 % 16 == b && h / 64 % 4 == c
  {
    assert (a + b * 4 + c * 64) / 4 == b + 16 * c;
  }

  lemma SumOfDigits(h: Byte)
    ensures h == h % 4 + h / 4 % 16 * 4 + h / 64 % 4 * 64
  {
    assert h / 4 / 16 == h / 64;
  }

  /** The accessors undo make_header... */
  lemma FieldsOfHeader(r: nat, t: nat, v: nat)
    ensures var h := MakeHeader(r, t, v);
            h < 256 && RouteType(h) == r % 4 && PayloadType(h) == t % 16 && PayloadVer(h) == v % 4
  {
    HeaderIsSum(r, t, v);
    DigitsOfSum(r % 4, t % 16, v % 4);
  }

  /** ... and make_header undoes the accessors. */
  lemma HeaderOfFields(header: Byte)
    ensures MakeHeader(RouteType(header), PayloadType(header), PayloadVer(header)) == header
  {
    SumOfDigits(header);
    HeaderOfDigits(RouteType(header), PayloadType(header), PayloadVer(header), header);
  }

  lemma HeaderOfDigits(r: nat, t: nat, v: nat, header: nat)
    requires r < 4 && t < 16 && v < 4 && header == r + t * 4 + v * 64
    ensures MakeHeader(r, t, v) == header
  {
    HeaderIsSum(r, t, v);
    SmallDigits(MakeHeader(r, t, v), r, t, v);
  }

  lemma SmallDigits(h: nat, r: nat, t: nat, v: nat)
    requires r < 4 && t < 16 && v < 4 && h == r % 4 + t % 16 * 4 + v % 4 * 64
    ensures h == r + t * 4 + v * 64
  {
  }

  /** The path byte and the pair of hash count and hash size determine each other. */
  lemma PathLenRoundTrip(hashCount: nat, hashSize: nat, raw: Byte)
    requires 1 <= hashSize <= 4
    ensures var e := EncodePathLen(hashCount, hashSize);
            e < 256 && HashCount(e) == hashCount % 64 && HashSize(e) == hashSize
    ensures EncodePathLen(HashCount(raw), HashSize(raw)) == raw
  {
    PathLenIsSum(hashCount, hashSize);
    CountAndSize(hashCount % 64, hashSize - 1);
    PathLenIsSum(HashCount(raw), HashSize(raw));
    assert raw % 64 + raw / 64 * 64 == raw;
  }

  lemma CountAndSize(a: nat, b: nat)
    requires a < 64 && b < 4
    ensures var e := a + b * 64; e < 256 && e % 64 == a && e / 64 == b
  {
  }

  lemma PathLenIsSum(hashCount: nat, hashSize: nat)
    requires hashSize > 0
    ensures EncodePathLen(hashCount, hashSize) == hashCount % 64 + (hashSize - 1) * 64
  {
    MaskIsLow(hashCount, 6);
    assert Pow2(6) == 64;
    OrOfShifted(hashCount % 64, hashSize - 1, 6);
  }

  // ---- packets ----

  datatype Packet = Packet(header: nat, pathLenRaw: nat, path: Data, payload: Data, code0: nat, code1: nat)

  /** What the constructor's callers are meant to supply. */
  ghost predicate WellFormed(p: Packet) {
    && p.header < 256 && p.pathLenRaw < 256
    && IsValidPathLen(p.pathLenRaw) && |p.path| == PathByteLen(p.pathLenRaw)
    && 1 <= |p.payload| <= MAX_PACKET_PAYLOAD
    && p.code0 < 65536 && p.code1 < 65536
    && (!HasTransportCodes(p.header) ==> p.code0 == 0 && p.code1 == 0)
  }

  /** struct.pack("<H", c & 0xFFFF) */
  function U16(c: nat): (r: Data)
    ensures |r| == 2
  {
    [c % 256, c / 256 % 256]
  }

  function FromU16(low: Byte, high: Byte): nat { low + 256 * high }

  function Codes(p: Packet): Data {
    if HasTransportCodes(p.header) then U16(p.code0) + U16(p.code1) else []
  }

  function ToBytes(p: Packet): Data {
    [p.header % 256] + Codes(p) + [p.pathLenRaw % 256] + p.path + p.payload
  }

  function RawLength(p: Packet): nat {
    2 + PathByteLen(p.pathLenRaw) + |p.payload| + if HasTransportCodes(p.header) then 4 else 0
  }

  datatype ParseError =
    TooShort | TruncatedCodes | MissingPathLen | InvalidPathLen | PathOverruns | MissingPayload | PayloadTooLong

  datatype Result<+T, +E> = Ok(value: T) | Err(error: E)

  /** What follows the optional transport codes, from position i on. */
  function ParsePath(data: Data, i: nat, code0: nat, code1: nat): Result<Packet, ParseError>
    requires 0 < i <= |data|
  {
    if i >= |data| then Err(MissingPathLen)
    else if !IsValidPathLen(data[i]) then Err(InvalidPathLen)
    else
      var j := i + 1 + PathByteLen(data[i]);
      if j > |data| then Err(PathOverruns)
      else if j >= |data| then Err(MissingPayload)
      else if |data| - j > MAX_PACKET_PAYLOAD then Err(PayloadTooLong)
      else Ok(Packet(data[0], data[i], data[i + 1..j], data[j..], code0, code1))
  }

  function Parse(data: Data): Result<Packet, ParseError> {
    if |data| < 2 then Err(TooShort)
    else if !HasTransportCodes(data[0]) then ParsePath(data, 1, 0, 0)
    else if |data| < 5 then Err(TruncatedCodes)
    else ParsePath(data, 5, FromU16(data[1], data[2]), FromU16(data[3], data[4]))
  }

  lemma PathParsed(data: Data, i: nat, code0: nat, code1: nat)
    requires 0 < i <= |data| && ParsePath(data, i, code0, code1).Ok?
    ensures var p := ParsePath(data, i, code0, code1).value;
            && i < |data| && p.header == data[0] && p.pathLenRaw == data[i] && p.code0 == code0 && p.code1 == code1
            && |p.path| == PathByteLen(p.pathLenRaw) && IsValidPathLen(p.pathLenRaw)
            && 1 <= |p.payload| <= MAX_PACKET_PAYLOAD
            && data == data[..i] + [data[i]] + p.path + p.payload
  {
  }

  /** What the parser accepts, the printer prints. */
  lemma ParsedPrints(data: Data)
    requires Parse(data).Ok?
    ensures WellFormed(Parse(data).value) && ToBytes(Parse(data).value) == data
  {
    if HasTransportCodes(data[0]) {
      CodesReprint(data);
      ParsedAtPrints(data, 5, FromU16(data[1], data[2]), FromU16(data[3], data[4]));
    } else {
      assert data[..1] == [data[0]] + [];
      ParsedAtPrints(data, 1, 0, 0);
    }
  }

  lemma ParsedAtPrints(data: Data, i: nat, code0: nat, code1: nat)
    requires 0 < i <= |data| && ParsePath(data, i, code0, code1).Ok? && code0 < 65536 && code1 < 65536
    requires HasTransportCodes(data[0]) || (code0 == 0 && code1 == 0)
    requires data[..i] == [data[0]] + if HasTransportCodes(data[0]) then U16(code0) + U16(code1) else []
    ensures var p := ParsePath(data, i, code0, code1).value; WellFormed(p) && ToBytes(p) == data
  {
    PathParsed(data, i, code0, code1);
  }

  lemma CodesReprint(data: Data)
    requires |data| >= 5
    ensures [data[0]] + (U16(FromU16(data[1], data[2])) + U16(FromU16(data[3], data[4]))) == data[..5]
  {
  }

  /** The part after position i is read back, wherever it starts. */
  lemma PrintedAt(data: Data, p: Packet, i: nat)
    requires WellFormed(p) && 0 < i < |data| && data[0] == p.header && data[i] == p.pathLenRaw
    requires data[i + 1..] == p.path + p.payload
    ensures ParsePath(data, i, p.code0, p.code1) == Ok(p)
  {
    var j := i + 1 + |p.path|;
    assert data[i + 1..j] == data[i + 1..][..|p.path|] == p.path;
    assert data[j..] == data[i + 1..][|p.path|..] == p.payload;
  }

  lemma PrintedCodes(p: Packet)
    requires WellFormed(p) && HasTransportCodes(p.header)
    ensures var data := ToBytes(p);
            && data[0] == p.header && data[5] == p.pathLenRaw && data[6..] == p.path + p.payload
            && FromU16(data[1], data[2]) == p.code0 && FromU16(data[3], data[4]) == p.code1
  {
    var data := ToBytes(p);
    assert data == [p.header] + U16(p.code0) + U16(p.code1) + [p.pathLenRaw] + (p.path + p.payload);
    assert data[1] == p.code0 % 256 && data[2] == p.code0 / 256 && data[3] == p.code1 % 256 && data[4] == p.code1 / 256;
  }

  lemma PrintedPlain(p: Packet)
    requires WellFormed(p) && !HasTransportCodes(p.header)
    ensures var data := ToBytes(p);
            data[0] == p.header && data[1] == p.pathLenRaw && data[2..] == p.path + p.payload
  {
    assert ToBytes(p) == [p.header] + [p.pathLenRaw] + (p.path + p.payload);
  }

  /** What the printer prints, the parser reads back. */
  lemma PrintedParses(p: Packet)
    requires WellFormed(p)
    ensures Parse(ToBytes(p)) == Ok(p)
  {
    if HasTransportCodes(p.header) {
      PrintedCodes(p);
      PrintedAt(ToBytes(p), p, 5);
    } else {
      PrintedPlain(p);
      PrintedAt(ToBytes(p), p, 1);
    }
  }

  /** The parser accepts exactly the printed forms of well-formed packets, and nothing is read two ways. */
  lemma ParseInvertsToBytes(data: Data, p: Packet)
    ensures Parse(data) == Ok(p) <==> WellFormed(p) && ToBytes(p) == data
  {
    if Parse(data) == Ok(p) {
      ParsedPrints(data);
    } else if WellFormed(p) && ToBytes(p) == data {
      PrintedParses(p);
      assert false;
    }
  }

  /** raw_length counts the bytes to_bytes writes, and no packet is longer than a transmission unit. */
  lemma RawLengthIsLength(p: Packet)
    requires WellFormed(p)
    ensures |ToBytes(p)| == RawLength(p) <= MAX_TRANS_UNIT
  {
  }

  method ParseCursor(data: Data) returns (r: Result<Packet, ParseError>)
    ensures r == Parse(data)
  {
    var n := |data|;
    if n < 2 {
      return Err(TooShort);
    }
    var i := 0;
    var header := data[i];
    i := i + 1;
    var code0, code1 := 0, 0;
    if HasTransportCodes(header) {
      if i + 4 > n {
        return Err(TruncatedCodes);
      }
      code0, code1 := FromU16(data[i], data[i + 1]), FromU16(data[i + 2], data[i + 3]);
      i := i + 4;
    }
    if i >= n {
      return Err(MissingPathLen);
    }
    var pathLenRaw := data[i];
    i := i + 1;
    if !IsValidPathLen(pathLenRaw) {
      return Err(InvalidPathLen);
    }
    var bl := HashCount(pathLenRaw) * HashSize(pathLenRaw);
    if i + bl > n {
      return Err(PathOverruns);
    }
    var path := data[i..i + bl];
    i := i + bl;
    if i >= n {
      return Err(MissingPayload);
    }
    if n - i > MAX_PACKET_PAYLOAD {
      return Err(PayloadTooLong);
    }
    r := Ok(Packet(header, pathLenRaw, path, data[i..], code0, code1));
  }

  method ToBytesBuffer(p: Packet) returns (out: Data)
    ensures out == ToBytes(p)
  {
    out := [p.header % 256];
    if HasTransportCodes(p.header) {
      out := out + (U16(p.code0) + U16(p.code1));
    }
    out := out + [p.pathLenRaw % 256];
    out := out + p.path;
    out := out + p.payload;
  }

  // ---- the hash that identifies all copies of a packet ----

  function HashInput(p: Packet): Data {
    [PayloadType(p.header)] +
    (if PayloadType(p.header) == PAYLOAD_TYPE_TRACE then [p.pathLenRaw % 256, p.pathLenRaw / 256 % 256] else []) +
    p.payload
  }

  /** Copies that differ in route, path and codes only are hashed alike; no other two packets are hashed over
      the same bytes. */
  lemma HashInputIdentifies(p: Packet, q: Packet)
    requires p.pathLenRaw < 256 && q.pathLenRaw < 256
    ensures HashInput(p) == HashInput(q) <==>
            && PayloadType(p.header) == PayloadType(q.header) && p.payload == q.payload
            && (PayloadType(p.header) == PAYLOAD_TYPE_TRACE ==> p.pathLenRaw == q.pathLenRaw)
  {
    var f, g := HashInput(p), HashInput(q);
    assert f[0] == PayloadType(p.header) && g[0] == PayloadType(q.header);
    if PayloadType(p.header) == PAYLOAD_TYPE_TRACE {
      assert f[1] == p.pathLenRaw && f[3..] == p.payload;
      if f == g {
        assert g[1] == q.pathLenRaw && g[3..] == q.payload;
      }
    } else {
      assert f[1..] == p.payload;
      if f == g {
        assert g[1..] == q.payload;
      }
    }
  }
}
