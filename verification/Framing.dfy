/**
 Numbers in little-endian order, as the packed structures of the client and the '<' formats of the server lay
 them out.
 */
module LittleEndian {
  import Arithmetic
  import opened OctetValues
  import opened Octets

  function Pack(v: nat, n: nat): (s: seq<bv8>)
    ensures |s| == n
  {
    if n == 0 then [] else [Octet(v % 256)] + Pack(v / 256, n - 1)
  }

  function Unpack(s: seq<bv8>): (v: nat)
    ensures v < Pow256(|s|)
  {
    if s == [] then 0 else Value(s[0]) + 256 * Unpack(s[1..])
  }

  lemma {:induction false} UnpackPack(v: nat, n: nat)
    requires v < Pow256(n)
    ensures Unpack(Pack(v, n)) == v
  {
    hide Value, Octet;
    if n > 0 {
      UnpackPack(v / 256, n - 1);
      ValueOfOctet(v % 256);
      assert Pack(v, n)[1..] == Pack(v / 256, n - 1);
    }
  }

  lemma {:induction false} PackUnpack(s: seq<bv8>)
    ensures Pack(Unpack(s), |s|) == s
  {
    hide Value, Octet;
    if s != [] {
      PackUnpack(s[1..]);
      OctetOfValue(s[0]);
      LowDigit(Unpack(s[1..]), Value(s[0]));
      assert s == [s[0]] + s[1..];
    }
  }

  lemma LowDigit(q: nat, r: nat)
    requires r < 256
    ensures (r + 256 * q) / 256 == q && (r + 256 * q) % 256 == r
  {
  }

  /** The low octet stands first: the rest of the number is behind it. */
  lemma LowOctetFirst(v: nat, n: nat)
    requires n > 0
    ensures Pack(v, n)[0] == Octet(v % 256) && Pack(v, n)[1..] == Pack(v / 256, n - 1)
  {
    hide Octet;
  }

  lemma {:induction false} LittleEndianExample()
    ensures Pack(0x102_0304, 4) == [4, 3, 2, 1] && Unpack([2, 1]) == 0x102
  {
    LowOctetFirst(0x102_0304, 4);
    LowOctetFirst(0x1_0203, 3);
    LowOctetFirst(0x102, 2);
    LowOctetFirst(1, 1);
    assert Octet(4) == 4 && Octet(3) == 3 && Octet(2) == 2 && Octet(1) == 1 && Value(1) == 1 && Value(2) == 2;
    assert [2, 1][1..] == [1] && [1][1..] == [];
    assert Unpack([1]) == 1;
  }

  /** Small numbers in the widths of the headers. */
  lemma {:induction false} SmallNumbers(v: nat)
    requires v < 256
    ensures Pack(v, 1) == [Octet(v)] && Pack(v, 2) == [Octet(v), 0] && Pack(v, 4) == [Octet(v), 0, 0, 0]
  {
    assert Octet(0) == 0;
    hide Octet;
    LowOctetFirst(v, 1);
    LowOctetFirst(v, 2);
    LowOctetFirst(v, 4);
    LowOctetFirst(0, 1);
    LowOctetFirst(0, 2);
    LowOctetFirst(0, 3);
  }

  /** The widths of the header fields. */
  lemma Widths()
    ensures Pow256(1) == 0x100 && Pow256(2) == 0x1_0000 && Pow256(4) == 0x1_0000_0000
  {
  }
}

/** Requests and responses as octets of a TCP stream, in whatever pieces it arrives. */
module Framing {
  import opened LittleEndian
  import opened OctetValues
  import opened Octets

  const CLIENT_ID_SIZE: nat := 16
  const NAME_LEN: nat := 255
  const CHUNK_SIZE: nat := 4096
  const REQUEST_HEADER_SIZE: nat := 23
  const MAX_PAYLOAD_SIZE: nat := 50 * 1024 * 1024

  /** Client identifiers. */
  type Id = s: seq<bv8> | |s| == 16 witness [0, 0, 0, 0, 0, 0, 0, 0, 0, 0, 0, 0, 0, 0, 0, 0]

  // ---------- requests ----------

  datatype Request = Request(clientId: Id, version: nat, code: nat, payload: seq<bv8>) {

    /** The fields fit the widths of the header. */
    predicate Valid() {
      version < 0x100 && code < 0x1_0000 && |payload| < 0x1_0000_0000
    }
  }

  /** RequestHeader in memory, without padding between its fields. */
  function PackHeader(id: Id, version: nat, code: nat, size: nat): (h: seq<bv8>)
    ensures |h| == REQUEST_HEADER_SIZE
  {
    id + Pack(version, 1) + Pack(code, 2) + Pack(size, 4)
  }

  /** struct.unpack with '<16s B H I'. */
  datatype Header = Header(clientId: Id, version: nat, code: nat, payloadSize: nat)

  function UnpackHeader(h: seq<bv8>): Header
    requires |h| == REQUEST_HEADER_SIZE
  {
    Header(h[..16], Unpack(h[16..17]), Unpack(h[17..19]), Unpack(h[19..23]))
  }

  lemma UnpackHeaderOfPack(id: Id, version: nat, code: nat, size: nat)
    requires version < 0x100 && code < 0x1_0000 && size < 0x1_0000_0000
    ensures UnpackHeader(PackHeader(id, version, code, size)) == Header(id, version, code, size)
  {
    hide Pack, Unpack;
    var h := PackHeader(id, version, code, size);
    Widths();
    UnpackPack(version, 1);
    UnpackPack(code, 2);
    UnpackPack(size, 4);
    assert h[..16] == id && h[16..17] == Pack(version, 1) && h[17..19] == Pack(code, 2) && h[19..23] == Pack(size, 4);
  }

  /** What the client writes for one request. */
  function Wire(r: Request): seq<bv8>
    requires r.Valid()
  {
    PackHeader(r.clientId, r.version, r.code, |r.payload|) + r.payload
  }

  function WireAll(rs: seq<Request>): seq<bv8>
    requires forall i :: 0 <= i < |rs| ==> rs[i].Valid()
  {
    if rs == [] then [] else Wire(rs[0]) + WireAll(rs[1..])
  }

  // ---------- the connection ----------

  class Socket {
    /** What the other side wrote and this side has not read yet; nothing more will come. */
    var stream: seq<bv8>

    constructor (s: seq<bv8>)
      ensures stream == s
    {
      stream := s;
    }

    /** Any non-empty piece of what is left, as the network happens to deliver it; empty at the end only. */
    method Recv(max: nat) returns (chunk: seq<bv8>)
      requires max > 0
      modifies this
      ensures |chunk| <= max && old(stream) == chunk + stream
      ensures chunk == [] <==> old(stream) == []
    {
      if stream == [] {
        return [];
      }
      var n :| 1 <= n <= max && n <= |stream|;
      chunk, stream := stream[..n], stream[n..];
    }
  }

  datatype Result<T> = Ok(value: T) | ConnectionError

  /** Exactly size octets, however they are cut; without enough of them an error. */
  method ReceiveBytes(conn: Socket, size: nat) returns (r: Result<seq<bv8>>)
    modifies conn
    ensures if size <= |old(conn.stream)|
            then r == Ok(old(conn.stream)[..size]) && conn.stream == old(conn.stream)[size..]
            else r == ConnectionError && conn.stream == []
  {
    if size == 0 {
      return Ok([]);
    }
    var received: nat := 0;
    var chunks: seq<seq<bv8>> := [];
    while received < size
      invariant received <= size && received <= |old(conn.stream)|
      invariant Join(chunks) == old(conn.stream)[..received] && conn.stream == old(conn.stream)[received..]
    {
      ghost var before := conn.stream;
      var chunk := conn.Recv(if size - received < CHUNK_SIZE then size - received else CHUNK_SIZE);
      if chunk == [] {
        return ConnectionError;
      }
      JoinLast(chunks, chunk);
      chunks := chunks + [chunk];
      TakeChunk(old(conn.stream), received, chunk, conn.stream);
      received := received + |chunk|;
    }
    r := Ok(Join(chunks));
  }

  function Join(chunks: seq<seq<bv8>>): seq<bv8> {
    if chunks == [] then [] else Join(chunks[..|chunks| - 1]) + chunks[|chunks| - 1]
  }

  lemma {:induction false} JoinLast(chunks: seq<seq<bv8>>, chunk: seq<bv8>)
    ensures Join(chunks + [chunk]) == Join(chunks) + chunk
  {
    assert (chunks + [chunk])[..|chunks|] == chunks;
  }

  lemma TakeChunk(s: seq<bv8>, n: nat, chunk: seq<bv8>, rest: seq<bv8>)
    requires n <= |s| && s[n..] == chunk + rest
    ensures n + |chunk| <= |s| && s[..n] + chunk == s[..n + |chunk|] && s[n + |chunk|..] == rest
  {
    assert s == s[..n] + (chunk + rest);
  }

  // ---------- responses ----------

  const RESPONSE_HEADER_SIZE: nat := 7

  datatype Response = Response(version: nat, code: nat, payload: seq<bv8>) {

    predicate Valid() {
      version < 0x100 && code < 0x1_0000 && |payload| < 0x1_0000_0000
    }
  }

  /** struct.pack with '< B H I', and the payload behind it. */
  function WireResponse(r: Response): seq<bv8> {
    Pack(r.version, 1) + Pack(r.code, 2) + Pack(|r.payload|, 4) + r.payload
  }

  /** The response at the front of a stream, and what is behind it. */
  function ParseResponse(s: seq<bv8>): Result<(Response, seq<bv8>)> {
    if |s| < RESPONSE_HEADER_SIZE then ConnectionError
    else
      var (version, code, size) := ResponseFields(s[..RESPONSE_HEADER_SIZE]);
      var rest := s[RESPONSE_HEADER_SIZE..];
      if |rest| < size then ConnectionError else Ok((Response(version, code, rest[..size]), rest[size..]))
  }

  /** The client's receiveResponse: header first, then as many octets as it says, or an error if the stream ends. */
  method ReceiveResponse(conn: Socket) returns (r: Result<Response>)
    modifies conn
    ensures match ParseResponse(old(conn.stream))
            case Ok((response, rest)) => r == Ok(response) && conn.stream == rest
            case ConnectionError => r == ConnectionError && conn.stream == []
  {
    hide ResponseFields;
    var h := ReceiveBytes(conn, RESPONSE_HEADER_SIZE);
    if h.ConnectionError? {
      return ConnectionError;
    }
    var fields := ResponseFields(h.value);
    var p := Result<seq<bv8>>.Ok([]);
    if fields.2 > 0 {
      p := ReceiveBytes(conn, fields.2);
    }
    r := if p.Ok? then Ok(Response(fields.0, fields.1, p.value)) else ConnectionError;
  }

  /** What the server wrote is what the client reads. */
  lemma ResponseRoundTrip(r: Response, rest: seq<bv8>)
    requires r.Valid()
    ensures ParseResponse(WireResponse(r) + rest) == Ok((r, rest))
  {
    hide WireResponse, ResponseFields;
    ResponseHeader(r, rest);
    assert (r.payload + rest)[..|r.payload|] == r.payload && (r.payload + rest)[|r.payload|..] == rest;
  }

  function ResponseFields(h: seq<bv8>): (nat, nat, nat)
    requires |h| == RESPONSE_HEADER_SIZE
  {
    (Unpack(h[..1]), Unpack(h[1..3]), Unpack(h[3..7]))
  }

  lemma ResponseHeader(r: Response, rest: seq<bv8>)
    requires r.Valid()
    ensures var s := WireResponse(r) + rest;
            && |s| >= RESPONSE_HEADER_SIZE && s[RESPONSE_HEADER_SIZE..] == r.payload + rest
            && ResponseFields(s[..RESPONSE_HEADER_SIZE]) == (r.version, r.code, |r.payload|)
  {
    hide Pack, Unpack;
    Widths();
    UnpackPack(r.version, 1);
    UnpackPack(r.code, 2);
    UnpackPack(|r.payload|, 4);
    var h := Pack(r.version, 1) + Pack(r.code, 2) + Pack(|r.payload|, 4);
    var s := WireResponse(r) + rest;
    assert s == h + (r.payload + rest);
    assert s[..7] == h && h[..1] == Pack(r.version, 1) && h[1..3] == Pack(r.code, 2) && h[3..7] == Pack(|r.payload|, 4);
  }

  // ---------- the payload of a packet ----------

  const REQ_FILE_HEADER_SIZE: nat := 267

  /** safeStrCopy into a zeroed field: at most one octet less than fits, so that a zero always ends it. */
  function NameField(name: seq<bv8>): (f: seq<bv8>)
    ensures |f| == NAME_LEN
  {
    if |name| < NAME_LEN then name + ZeroOctets(NAME_LEN - |name|) else name[..NAME_LEN - 1] + [0]
  }

  /** field.split(b'\\0', 1)[0] */
  function UpToZero(f: seq<bv8>): seq<bv8> {
    if f == [] || f[0] == 0 then [] else [f[0]] + UpToZero(f[1..])
  }

  lemma {:induction false} UpToZeroOf(name: seq<bv8>, rest: seq<bv8>)
    requires 0 !in name && (rest == [] || rest[0] == 0)
    ensures UpToZero(name + rest) == name
  {
    if name == [] {
      assert name + rest == rest;
    } else {
      assert (name + rest)[1..] == name[1..] + rest;
      UpToZeroOf(name[1..], rest);
    }
  }

  /** os.path.basename: what follows the last slash. */
  function BaseName(path: seq<bv8>): (name: seq<bv8>)
    ensures SLASH !in name && (SLASH !in path ==> name == path)
  {
    if path == [] then []
    else if path[|path| - 1] == SLASH then []
    else BaseName(path[..|path| - 1]) + [path[|path| - 1]]
  }

  const SLASH: bv8 := 0x2f

  predicate IsAscii(s: seq<bv8>) {
    forall i :: 0 <= i < |s| ==> s[i] < 0x80
  }

  datatype FilePayload =
    | TooShort
    | NotAscii
    | FilePayload(contentSize: nat, origFileSize: nat, packetNumber: nat, totalPackets: nat, name: seq<bv8>,
        data: seq<bv8>)

  /** PayloadFile, and the packet behind it. */
  function PackFile(p: FilePayload): seq<bv8>
    requires p.FilePayload?
  {
    Pack(p.contentSize, 4) + Pack(p.origFileSize, 4) + Pack(p.packetNumber, 2) + Pack(p.totalPackets, 2)
      + NameField(p.name) + p.data
  }

  /** get_file_payload: struct.unpack with '<I I H H 255s', the name up to its zero, and without directories. */
  function GetFilePayload(payload: seq<bv8>): FilePayload {
    if |payload| < REQ_FILE_HEADER_SIZE then TooShort
    else
      var name := UpToZero(payload[12..267]);
      if !IsAscii(name) then NotAscii
      else FilePayload(Unpack(payload[..4]), Unpack(payload[4..8]), Unpack(payload[8..10]), Unpack(payload[10..12]),
                       BaseName(name), payload[267..])
  }

  /** What fits a field of a name. */
  function Seen(name: seq<bv8>): seq<bv8> {
    if |name| < NAME_LEN then name else name[..NAME_LEN - 1]
  }

  lemma NameFieldRoundTrip(name: seq<bv8>)
    requires 0 !in name
    ensures UpToZero(NameField(name)) == Seen(name)
  {
    if |name| < NAME_LEN {
      UpToZeroOf(name, ZeroOctets(NAME_LEN - |name|));
    } else {
      UpToZeroOf(name[..NAME_LEN - 1], [0]);
    }
  }

  /** The server reads the packet that the client sent; of a long name it sees the first 254 octets. */
  lemma FilePayloadRoundTrip(p: FilePayload)
    requires p.FilePayload? && 0 !in p.name && SLASH !in p.name
    requires p.contentSize < 0x1_0000_0000 && p.origFileSize < 0x1_0000_0000
    requires p.packetNumber < 0x1_0000 && p.totalPackets < 0x1_0000
    ensures GetFilePayload(PackFile(p)) == if IsAscii(Seen(p.name)) then p.(name := Seen(p.name)) else NotAscii
  {
    hide Pack, Unpack, UpToZero;
    Widths();
    UnpackPack(p.contentSize, 4);
    UnpackPack(p.origFileSize, 4);
    UnpackPack(p.packetNumber, 2);
    UnpackPack(p.totalPackets, 2);
    var s, f := PackFile(p), NameField(p.name);
    assert s[..4] == Pack(p.contentSize, 4) && s[4..8] == Pack(p.origFileSize, 4);
    assert s[8..10] == Pack(p.packetNumber, 2) && s[10..12] == Pack(p.totalPackets, 2);
    assert s[12..267] == f && s[267..] == p.data;
    NameFieldRoundTrip(p.name);
  }

  // ---------- identifiers in hexadecimal ----------

  const UUID_LEN: nat := 32

  function HexDigit(v: bv8): char
    requires v < 16
  {
    match v
    case 0 => '0'
    case 1 => '1'
    case 2 => '2'
    case 3 => '3'
    case 4 => '4'
    case 5 => '5'
    case 6 => '6'
    case 7 => '7'
    case 8 => '8'
    case 9 => '9'
    case 10 => 'a'
    case 11 => 'b'
    case 12 => 'c'
    case 13 => 'd'
    case 14 => 'e'
    case _ => 'f'
  }

  predicate IsHexDigit(c: char) {
    '0' <= c <= '9' || 'a' <= c <= 'f' || 'A' <= c <= 'F'
  }

  function DigitValue(c: char): (v: bv8)
    ensures v < 16
  {
    match c
    case '1' => 1
    case '2' => 2
    case '3' => 3
    case '4' => 4
    case '5' => 5
    case '6' => 6
    case '7' => 7
    case '8' => 8
    case '9' => 9
    case 'a' | 'A' => 10
    case 'b' | 'B' => 11
    case 'c' | 'C' => 12
    case 'd' | 'D' => 13
    case 'e' | 'E' => 14
    case 'f' | 'F' => 15
    case _ => 0
  }

  function BytesToHex(data: seq<bv8>): (hex: string)
    ensures |hex| == 2 * |data|
  {
    if data == [] then ""
    else [HexDigit(data[0] >> 4), HexDigit(data[0] & 0xf)] + BytesToHex(data[1..])
  }

  /** strtol in base 16 of a text of one or two characters, cast to an octet: blanks and a sign may precede a digit. */
  function Strtol(text: string): bv8
    requires 1 <= |text| <= 2
  {
    var second := if |text| == 2 && IsHexDigit(text[1]) then DigitValue(text[1]) else 0;
    if text[0] == ' ' || '\t' <= text[0] <= '\r' || text[0] == '+' then second
    else if text[0] == '-' then 0 - second
    else if !IsHexDigit(text[0]) then 0
    else if |text| == 2 && IsHexDigit(text[1]) then PairValue(text[0], text[1])
    else DigitValue(text[0])
  }

  function PairValue(high: char, low: char): bv8 {
    (DigitValue(high) << 4) | DigitValue(low)
  }

  lemma PairOfOctet(b: bv8)
    ensures b >> 4 < 16 && b & 0xf < 16 && Strtol([HexDigit(b >> 4), HexDigit(b & 0xf)]) == b
  {
    DigitOfHex(b >> 4);
    DigitOfHex(b & 0xf);
    NibblesJoin(b);
    hide DigitValue, HexDigit, IsHexDigit;
  }

  lemma DigitOfHex(v: bv8)
    requires v < 16
    ensures DigitValue(HexDigit(v)) == v && IsHexDigit(HexDigit(v))
    ensures HexDigit(v) != ' ' && HexDigit(v) > '\r' && HexDigit(v) != '+' && HexDigit(v) != '-'
  {
  }

  lemma NibblesJoin(b: bv8)
    ensures ((b >> 4) << 4) | (b & 0xf) == b
  {
  }

  lemma {:induction false} HexAt(data: seq<bv8>, i: nat)
    requires i < |data|
    ensures Strtol(BytesToHex(data)[2 * i..2 * i + 2]) == data[i]
  {
    hide Strtol, HexDigit;
    PairOfOctet(data[0]);
    var p, t := [HexDigit(data[0] >> 4), HexDigit(data[0] & 0xf)], BytesToHex(data[1..]);
    if i > 0 {
      HexAt(data[1..], i - 1);
    }
    PairsOf(p, t, i);
  }

  lemma PairsOf(p: string, t: string, i: nat)
    requires |p| == 2 && 2 * i <= |t|
    ensures (p + t)[2 * i..2 * i + 2] == if i == 0 then p else t[2 * (i - 1)..2 * (i - 1) + 2]
  {
  }

  /** hex.substr(i, 2) */
  function PairAt(hex: string, i: nat): (p: string)
    requires i < |hex|
    ensures 1 <= |p| <= 2
  {
    if i + 2 <= |hex| then hex[i..i + 2] else hex[i..]
  }

  /** Writes the octets of a text of digits to the buffer, 16 at most; for no text it writes nothing. */
  method HexToBytes(hex: string, bytes: array<bv8>)
    requires bytes.Length == CLIENT_ID_SIZE
    modifies bytes
    ensures forall data: seq<bv8> :: hex == BytesToHex(data) && |data| <= CLIENT_ID_SIZE ==>
      bytes[..] == data + old(bytes[|data|..])
  {
    hide Strtol, BytesToHex;
    var i: nat := 0;
    ghost var half: nat := 0;
    while i < |hex| && i < UUID_LEN
      invariant i == 2 * half <= |hex| + 1 && half <= CLIENT_ID_SIZE
      invariant forall j :: 0 <= j < half ==> bytes[j] == Strtol(PairAt(hex, 2 * j))
      invariant forall j :: half <= j < CLIENT_ID_SIZE ==> bytes[j] == old(bytes[j])
    {
      bytes[i / 2] := Strtol(PairAt(hex, i));
      i := i + 2;
      half := half + 1;
    }
    forall data: seq<bv8> | hex == BytesToHex(data) && |data| <= CLIENT_ID_SIZE
      ensures bytes[..] == data + old(bytes[|data|..])
    {
      forall j | 0 <= j < |data|
        ensures bytes[j] == data[j]
      {
        HexAt(data, j);
      }
    }
  }

  /** Different identifiers look different. */
  lemma HexInjective(a: seq<bv8>, b: seq<bv8>)
    requires BytesToHex(a) == BytesToHex(b)
    ensures a == b
  {
    hide Strtol, BytesToHex;
    assert |a| == |b|;
    forall i | 0 <= i < |a|
      ensures a[i] == b[i]
    {
      HexAt(a, i);
      HexAt(b, i);
    }
  }

  // ---------- what the octets on the wire look like ----------

  /** A header: identifier, version 3, code 828, and the size of the payload, low octets first. */
  lemma HeaderExample(id: Id)
    ensures PackHeader(id, 3, 828, 5) == id + [3, 0x3c, 3, 5, 0, 0, 0]
  {
    hide Pack;
    SmallNumbers(3);
    SmallNumbers(5);
    CodeExample();
    assert Octet(3) == 3 && Octet(5) == 5;
  }

  lemma {:induction false} CodeExample()
    ensures Pack(828, 2) == [0x3c, 3] && Pack(1604, 2) == [0x44, 6]
  {
    LowOctetFirst(828, 2);
    LowOctetFirst(3, 1);
    LowOctetFirst(1604, 2);
    LowOctetFirst(6, 1);
    assert Octet(0x3c) == 0x3c && Octet(3) == 3 && Octet(0x44) == 0x44 && Octet(6) == 6;
  }

  /** The second of three packets of a file "a" of one octet, enciphered to sixteen. */
  lemma PacketExample(data: seq<bv8>)
    ensures PackFile(FilePayload(16, 1, 2, 3, [0x61], data))
         == [16, 0, 0, 0, 1, 0, 0, 0, 2, 0, 3, 0] + ([0x61] + ZeroOctets(254)) + data
  {
    hide Pack;
    SmallNumbers(16);
    SmallNumbers(1);
    SmallNumbers(2);
    SmallNumbers(3);
    assert Octet(16) == 16 && Octet(1) == 1 && Octet(2) == 2 && Octet(3) == 3;
    NameFieldIs([0x61]);
  }

  /** A response: version, code 1604, the size of the payload, and the payload. */
  lemma ResponseExample(payload: seq<bv8>)
    requires |payload| == 16
    ensures WireResponse(Response(3, 1604, payload)) == [3, 0x44, 6, 16, 0, 0, 0] + payload
  {
    hide Pack;
    SmallNumbers(3);
    SmallNumbers(16);
    CodeExample();
    assert Octet(3) == 3 && Octet(16) == 16;
  }

  /** A field holds at most 254 octets of a name, and zeros behind them. */
  lemma NameFieldIs(name: seq<bv8>)
    ensures |name| <= 254 ==> NameField(name) == name + ZeroOctets(255 - |name|) && Seen(name) == name
    ensures |name| > 254 ==> NameField(name) == name[..254] + [0] && Seen(name) == name[..254]
  {
  }

  /** The name of a file is what follows the last slash. */
  lemma BaseNameIs(dir: seq<bv8>, name: seq<bv8>)
    requires 0x2f !in name
    ensures BaseName(dir + [0x2f] + name) == name && BaseName(name) == name
  {
    hide BaseName;
    BaseNameUpTo(dir, name, |name|);
    assert name[..|name|] == name;
  }

  lemma {:induction false} BaseNameUpTo(dir: seq<bv8>, name: seq<bv8>, k: nat)
    requires 0x2f !in name && k <= |name|
    ensures BaseName(dir + [0x2f] + name[..k]) == name[..k]
  {
    hide BaseName;
    if k == 0 {
      BaseNameLast(dir, 0x2f);
      assert dir + [0x2f] + name[..0] == dir + [0x2f];
    } else {
      BaseNameUpTo(dir, name, k - 1);
      BaseNameLast(dir + [0x2f] + name[..k - 1], name[k - 1]);
      assert name[..k] == name[..k - 1] + [name[k - 1]];
      assert dir + [0x2f] + name[..k] == dir + [0x2f] + name[..k - 1] + [name[k - 1]];
    }
  }

  lemma BaseNameLast(path: seq<bv8>, c: bv8)
    ensures BaseName(path + [c]) == if c == 0x2f then [] else BaseName(path) + [c]
  {
    assert (path + [c])[..|path|] == path;
  }

  lemma AsciiIs(b: bv8)
    ensures IsAscii([b]) <==> b <= 0x7f
  {
    assert [b][0] == b;
  }

  /** Two lower-case digits for each octet, the high one first. */
  lemma {:induction false} HexExample()
    ensures BytesToHex([0x0f, 0xa0]) == "0fa0"
  {
    assert [0x0f, 0xa0][1..] == [0xa0] && [0xa0][1..] == [];
    assert BytesToHex([0xa0]) == "a0" by {
      assert BytesToHex([]) == "";
    }
  }
}
