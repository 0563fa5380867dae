/** Replies as octets, and what the client takes out of them. */
module Replies {
  import opened Framing
  import opened LittleEndian
  import opened OctetValues
  import opened Octets
  import opened Options
  import opened Server
  import Words32

  const FILE_OK_SIZE: nat := 279

  /** str.encode('ascii'), of a text that is ASCII. */
  function Encode(t: string): (s: seq<bv8>)
    requires Encodable(t)
    ensures |s| == |t|
  {
    seq(|t|, i requires 0 <= i < |t| => Octet(t[i] as nat))
  }

  predicate Encodable(t: string) {
    forall i :: 0 <= i < |t| ==> t[i] as nat < 0x80
  }

  /** '255s' of struct.pack: filled up with zeros, or cut. */
  function PackName(s: seq<bv8>): (f: seq<bv8>)
    ensures |f| == NAME_LEN
  {
    if |s| <= NAME_LEN then s + ZeroOctets(NAME_LEN - |s|) else s[..NAME_LEN]
  }

  /** 'I' of struct.pack with '<'. */
  function PackWord(x: bv32): (s: seq<bv8>)
    ensures |s| == 4
  {
    [Words32.OctetOf(x, 0), Words32.OctetOf(x, 1), Words32.OctetOf(x, 2), Words32.OctetOf(x, 3)]
  }

  /** What the replies carry fits the fields. */
  predicate Fits(reply: Reply) {
    match reply
    case PubKeyReceived(e) => |e| < 0x1_0000_0000 - CLIENT_ID_SIZE
    case ReconnectAccept(e) => |e| < 0x1_0000_0000 - CLIENT_ID_SIZE
    case FileOK(size, name, crc) => size < 0x1_0000_0000 && Encodable(name)
    case _ => true
  }

  /** The version, code and payload of a reply to a client; most replies repeat its identifier. */
  function Sent(id: Id, reply: Reply): (r: Response)
    requires Fits(reply)
    ensures r.Valid()
  {
    match reply
    case RegisterSuccess(newId) => Response(3, 1600, newId)
    case RegisterFail => Response(3, 1601, [])
    case PubKeyReceived(e) => Response(3, 1602, id + e)
    case FileOK(size, name, crc) => Response(3, 1603, id + Pack(size, 4) + PackName(Encode(name)) + PackWord(crc))
    case MessageACK => Response(3, 1604, id)
    case ReconnectAccept(e) => Response(3, 1605, id + e)
    case ReconnectReject => Response(3, 1606, id)
    case GeneralError => Response(3, 1607, [])
  }

  // ---------- what the client makes of a response ----------

  /** What comes of waiting for a response: a value, a refusal, or an exception. */
  datatype Outcome<T> = Got(value: T) | Refused | Exception

  /** The end of registerClient. */
  function RegistrationOf(r: Response): Outcome<seq<bv8>> {
    if r.code == 1601 || r.code != 1600 || |r.payload| != CLIENT_ID_SIZE then Exception else Got(r.payload)
  }

  /** The key behind the identifier; a payload that is too short makes the length wrap around, which raises. */
  function KeyBehind(payload: seq<bv8>): Outcome<seq<bv8>> {
    if |payload| < CLIENT_ID_SIZE then Exception else Got(payload[CLIENT_ID_SIZE..])
  }

  /** The end of sendPublicKey. */
  function GrantedKey(r: Response): Outcome<seq<bv8>> {
    if r.code != 1602 then Exception else KeyBehind(r.payload)
  }

  /** The end of reconnect. */
  function RefreshedKey(r: Response): Outcome<seq<bv8>> {
    if r.code == 1606 then Refused
    else if r.code != 1605 then Exception
    else KeyBehind(r.payload)
  }

  /** The end of transferFileInPackets. */
  function ServerChecksum(r: Response): Outcome<bv32> {
    if r.code != 1603 || |r.payload| < FILE_OK_SIZE then Exception
    else Got(Words32.Join(r.payload[275], r.payload[276], r.payload[277], r.payload[278]))
  }

  // ---------- the way of a reply ----------

  /** The octets of a reply are read as the response that was sent, whatever follows them. */
  lemma ReplyIsRead(id: Id, reply: Reply, rest: seq<bv8>)
    requires Fits(reply)
    ensures ParseResponse(WireResponse(Sent(id, reply)) + rest) == Ok((Sent(id, reply), rest))
  {
    hide WireResponse, ParseResponse, Sent;
    ResponseRoundTrip(Sent(id, reply), rest);
  }

  /**
   Each function of the client takes out of a response what the handler put into the reply, and every other reply
   raises there, but for the rejected reconnect.
   */
  lemma ClientUnderstands(id: Id, reply: Reply)
    requires Fits(reply)
    ensures RegistrationOf(Sent(id, reply))
         == if reply.RegisterSuccess? then Outcome<seq<bv8>>.Got(reply.newId) else Exception
    ensures GrantedKey(Sent(id, reply)) == if reply.PubKeyReceived? then Got(reply.encryptedKey) else Exception
    ensures RefreshedKey(Sent(id, reply)) == match reply
                                             case ReconnectAccept(e) => Got(e)
                                             case ReconnectReject => Refused
                                             case _ => Exception
    ensures ServerChecksum(Sent(id, reply)) == if reply.FileOK? then Got(reply.crc) else Exception
  {
    hide Pack, PackName, Encode, Words32.OctetOf, Words32.Join;
    match reply
    case FileOK(size, name, crc) =>
      var front, word := id + Pack(size, 4) + PackName(Encode(name)), PackWord(crc);
      LastFour(front, word);
      Words32.JoinOctets(crc);
    case PubKeyReceived(e) => assert (id + e)[16..] == e;
    case ReconnectAccept(e) => assert (id + e)[16..] == e;
    case _ =>
  }

  lemma LastFour(front: seq<bv8>, word: seq<bv8>)
    requires |front| == 275 && |word| == 4
    ensures var s := front + word;
            |s| == 279 && s[275] == word[0] && s[276] == word[1] && s[277] == word[2] && s[278] == word[3]
  {
  }

  /** The other fields of 1603: the identifier, the size of the ciphertext, and the name. */
  lemma FileFields(id: Id, size: nat, name: string, crc: bv32)
    requires size < 0x1_0000_0000 && Encodable(name) && |name| <= 255
    ensures var p := Sent(id, FileOK(size, name, crc)).payload;
            && |p| == 279 && p[..16] == id && Unpack(p[16..20]) == size
            && p[20..20 + |name|] == Encode(name) && p[20 + |name|..275] == ZeroOctets(255 - |name|)
  {
    hide Pack, Unpack, Encode, PackWord;
    Widths();
    UnpackPack(size, 4);
    var p := Sent(id, FileOK(size, name, crc)).payload;
    var a, f, w := Pack(size, 4), PackName(Encode(name)), PackWord(crc);
    assert p == id + a + f + w;
    assert p[..16] == id && p[16..20] == a && p[20..275] == f;
    assert f[..|name|] == Encode(name) && f[|name|..] == ZeroOctets(255 - |name|);
    assert p[20..20 + |name|] == f[..|name|] && p[20 + |name|..275] == f[|name|..];
  }

  /** A name the server decoded is one it can encode again. */
  lemma EncodeDecode(s: seq<bv8>)
    requires IsAscii(s)
    ensures Encodable(Decode(s)) && Encode(Decode(s)) == s
  {
    forall i | 0 <= i < |s|
      ensures (Decode(s)[i] as nat) < 0x80 && Octet(Decode(s)[i] as nat) == s[i]
    {
      AsciiValue(s[i]);
      OctetOfValue(s[i]);
    }
    hide Octet, Value;
  }

  lemma AsciiValue(b: bv8)
    requires b < 0x80
    ensures Value(b) < 0x80
  {
  }

  /** The reply to the checksum 0x377a6011 of nine octets. */
  lemma {:induction false} ChecksumExample(id: Id)
    ensures var r := Sent(id, FileOK(16, "a", 0x377a_6011));
            r.version == 3 && r.code == 1603 && r.payload[16..21] == [16, 0, 0, 0, 0x61]
            && r.payload[275..] == [0x11, 0x60, 0x7a, 0x37]
  {
    var a, f, w := Pack(16, 4), PackName(Encode("a")), PackWord(0x377a_6011);
    SmallNumbers(16);
    assert Octet(16) == 16 && Octet('a' as nat) == 0x61;
    assert w == [0x11, 0x60, 0x7a, 0x37];
    assert Encode("a") == [0x61];
    assert f[0] == 0x61;
    hide Pack, PackName, Encode, PackWord, Octet;
    var p := id + a + f + w;
    assert p[16..21] == a + [f[0]] && p[275..] == w;
  }
}
