/** One run of the client's sendFile against the server's handlers, step by step. */
module Transfer {
  import opened Arithmetic
  import opened Crc
  import opened Framing
  import opened Options
  import opened Server

  const PACKET_SIZE: nat := 1024 * 1024
  const MAX_RETRIES: nat := 4

  /** The file, its encryption, and what its owner and the server have agreed on. */
  datatype Config = Config(crypto: Crypto, id: seq<bv8>, name: seq<bv8>, content: Data, key: Data, encrypted: Data) {

    /** Decrypting undoes encrypting; a ciphertext is longer than its text. The name is that of a readable file. */
    predicate Valid() {
      && |id| == CLIENT_ID_SIZE && key != []
      && crypto.decrypt(key, encrypted) == Some(content)
      && |content| < |encrypted| <= 0x8000_0000
      && 0 !in name && SLASH !in name && IsFileName(Stored())
    }

    /** The name under which the server stores the file: as much of it as a field holds. */
    function Stored(): string {
      Decode(Seen(name))
    }

    function Checksum(): bv32 {
      Cksum(content)
    }

    function Total(): (n: nat)
      ensures n > 0
    {
      TotalPackets(|encrypted|)
    }
  }

  // ---------- packets ----------

  /** The least number of packets that hold so many octets, but one at least. */
  function TotalPackets(length: nat): (n: nat)
    ensures n > 0
  {
    if length == 0 then 1 else (length + PACKET_SIZE - 1) / PACKET_SIZE
  }

  /** Where packet k ends. */
  function EndOf(length: nat, k: nat): (e: nat)
    ensures e <= length
  {
    Min(k * PACKET_SIZE, length)
  }

  function PacketData(data: Data, k: nat): Data
    requires k > 0
  {
    data[EndOf(|data|, k - 1)..EndOf(|data|, k)]
  }

  /** Packets put together again are the data; the last one ends it. */
  lemma {:induction false} PacketsJoin(data: Data, k: nat)
    requires k > 0
    ensures data[..EndOf(|data|, k - 1)] + PacketData(data, k) == data[..EndOf(|data|, k)]
    ensures k == TotalPackets(|data|) ==> data[..EndOf(|data|, k)] == data
  {
    if k == TotalPackets(|data|) {
      LastPacketEnds(|data|);
    }
  }

  lemma LastPacketEnds(length: nat)
    ensures EndOf(length, TotalPackets(length)) == length
  {
  }

  /** The request for packet k, with some data in it. */
  function PacketRequest(cfg: Config, k: nat, data: Data): ClientRequest {
    ClientRequest.SendFile(PackFile(FilePayload(|cfg.encrypted|, |cfg.content|, k, cfg.Total(), cfg.name, data)))
  }

  function Attempt(cfg: Config): (s: seq<ClientRequest>)
    ensures |s| == cfg.Total()
  {
    seq(cfg.Total(), i requires 0 <= i => PacketRequest(cfg, i + 1, PacketData(cfg.encrypted, i + 1)))
  }

  // ---------- what the client sends ----------

  /** Where sendFile is. */
  datatype Client =
    | Packet(attempt: nat, number: nat)
    | AwaitFile(attempt: nat)
    | Confirming(attempt: nat)
    | AwaitAck(attempt: nat)
    | Resending(attempt: nat)
    | Aborting
    | Done(attempt: nat)
    | Aborted
    | Failed(attempt: nat, packets: nat)

  /** Attempts that failed and were followed by 901. */
  function Tries(cfg: Config, n: nat): seq<ClientRequest> {
    if n == 0 then [] else Tries(cfg, n - 1) + Attempt(cfg) + [CRCBadResend]
  }

  function Verdict(cfg: Config, ok: bool): ClientRequest {
    if ok then CRCOK(NameField(cfg.name)) else CRCBadDone(NameField(cfg.name))
  }

  predicate InAttempts(cfg: Config, client: Client) {
    match client
    case Packet(a, k) => 1 <= a <= MAX_RETRIES && 1 <= k <= cfg.Total()
    case AwaitFile(a) => 1 <= a <= MAX_RETRIES
    case Confirming(a) => 1 <= a <= MAX_RETRIES
    case AwaitAck(a) => 1 <= a <= MAX_RETRIES
    case Resending(a) => 1 <= a < MAX_RETRIES
    case Done(a) => 1 <= a <= MAX_RETRIES
    case Failed(a, k) => 1 <= a <= MAX_RETRIES && k <= cfg.Total()
    case Aborting => true
    case Aborted => true
  }

  /**
   All that was sent until then: 901 between attempts and nowhere else, at most four attempts, one 900 or 902
   at most.
   */
  function Script(cfg: Config, client: Client): seq<ClientRequest>
    requires InAttempts(cfg, client)
  {
    match client
    case Packet(a, k) => Tries(cfg, a - 1) + Attempt(cfg)[..k - 1]
    case AwaitFile(a) => Tries(cfg, a - 1) + Attempt(cfg)
    case Confirming(a) => Tries(cfg, a - 1) + Attempt(cfg)
    case Resending(a) => Tries(cfg, a - 1) + Attempt(cfg)
    case AwaitAck(a) => Tries(cfg, a - 1) + Attempt(cfg) + [Verdict(cfg, true)]
    case Done(a) => Tries(cfg, a - 1) + Attempt(cfg) + [Verdict(cfg, true)]
    case Aborting => Tries(cfg, MAX_RETRIES - 1) + Attempt(cfg)
    case Aborted => Tries(cfg, MAX_RETRIES - 1) + Attempt(cfg) + [Verdict(cfg, false)]
    case Failed(a, k) => Tries(cfg, a - 1) + Attempt(cfg)[..k]
  }

  predicate Wrong(cfg: Config, r: Reply) {
    r.FileOK? && r.crc != cfg.Checksum()
  }

  predicate Right(cfg: Config, r: Reply) {
    r.FileOK? && r.crc == cfg.Checksum()
  }

  predicate AllWrong(cfg: Config, read: seq<Reply>, n: nat) {
    n <= |read| && forall i :: 0 <= i < n ==> Wrong(cfg, read[i])
  }

  /**
   The answers that lead there: each attempt but the last was answered with a wrong checksum; 900 goes out after
   the right one, 901 after a wrong one that is not the fourth, 902 after four wrong ones.
   */
  predicate Answers(cfg: Config, client: Client, read: seq<Reply>)
    requires InAttempts(cfg, client)
  {
    match client
    case Packet(a, _) => |read| == a - 1 && AllWrong(cfg, read, a - 1)
    case AwaitFile(a) => |read| == a - 1 && AllWrong(cfg, read, a - 1)
    case Confirming(a) => |read| == a && AllWrong(cfg, read, a - 1) && Right(cfg, read[a - 1])
    case AwaitAck(a) => |read| == a && AllWrong(cfg, read, a - 1) && Right(cfg, read[a - 1])
    case Done(a) => |read| == a + 1 && AllWrong(cfg, read, a - 1) && Right(cfg, read[a - 1])
    case Resending(a) => |read| == a && AllWrong(cfg, read, a)
    case Aborting => |read| == MAX_RETRIES && AllWrong(cfg, read, MAX_RETRIES)
    case Aborted => |read| == MAX_RETRIES && AllWrong(cfg, read, MAX_RETRIES)
    case Failed(a, _) => a - 1 <= |read| <= a && AllWrong(cfg, read, a - 1)
  }

  /** An exception because of the reply: it does not say that the file is there. */
  predicate Refused(client: Client, read: seq<Reply>)
    requires client.Failed?
  {
    |read| == client.attempt > 0 && !read[client.attempt - 1].FileOK?
  }

  // ---------- the code of the client ----------

  /** The connection as sendFile sees it: what goes out and what comes in is kept; each call may raise instead. */
  class Link {
    var sent: seq<ClientRequest>
    ghost var received: seq<Reply>
    ghost var raised: bool

    constructor ()
      ensures sent == [] && received == [] && !raised
    {
      sent, received, raised := [], [], false;
    }

    method Send(r: ClientRequest) returns (ok: bool)
      modifies this
      ensures sent == (if ok then old(sent) + [r] else old(sent)) && received == old(received)
      ensures raised == (old(raised) || !ok)
    {
      ok := *;
      if ok {
        sent := sent + [r];
      } else {
        raised := true;
      }
    }

    method Receive() returns (r: Option<Reply>)
      modifies this`received, this`raised
      ensures received == (if r.Some? then old(received) + [r.value] else old(received))
      ensures raised == (old(raised) || r.None?)
    {
      r := *;
      match r
      case Some(reply) => received := received + [reply];
      case None => raised := true;
    }
  }

  /** The widths the code computes the packets with. */
  function TotalPackets16(length: nat): nat {
    var n := (length + PACKET_SIZE - 1) / PACKET_SIZE % 0x1_0000;
    if n == 0 then 1 else n
  }

  /**
   16 bits for the number of packets and a signed int for offsets are enough exactly up to 2^31 octets:
   beyond, an offset overflows, or the number of packets is cut short.
   */
  lemma WidthsSuffice(length: nat)
    ensures TotalPackets16(length) == TotalPackets(length) && (TotalPackets16(length) - 1) * PACKET_SIZE < 0x8000_0000
       <==> length <= 0x8000_0000
  {
    var n := (length + PACKET_SIZE - 1) / PACKET_SIZE;
    if n >= 0x1_0000 {
      assert TotalPackets16(length) != TotalPackets(length);
    }
  }

  /** Sends the packets of one attempt, or those before the one that raises. */
  method TransferFileInPackets(link: Link, cfg: Config) returns (packets: nat)
    requires cfg.Valid() && !link.raised
    modifies link
    ensures packets <= cfg.Total() && (packets < cfg.Total() <==> link.raised)
    ensures link.sent == old(link.sent) + Attempt(cfg)[..packets] && link.received == old(link.received)
    ensures |link.sent| == |old(link.sent)| + packets && ArePackets(cfg, link.sent[|old(link.sent)|..])
  {
    hide PacketRequest, TotalPackets, TotalPackets16, EndOf, Attempt, Min, IsPacket;
    WidthsSuffice(|cfg.encrypted|);
    AttemptAt(cfg, 1);
    var total := TotalPackets16(|cfg.encrypted|);
    for k := 1 to total + 1
      invariant !link.raised && link.received == old(link.received)
      invariant link.sent == old(link.sent) + Attempt(cfg)[..k - 1]
    {
      OffsetInside(|cfg.encrypted|, k);
      var offset := (k - 1) * PACKET_SIZE;
      AttemptAt(cfg, k);
      var size := Min(PACKET_SIZE, (|cfg.encrypted| - offset) % 0x1_0000_0000);
      var data := cfg.encrypted[offset..offset + size];
      assert data == PacketData(cfg.encrypted, k);
      var ok := link.Send(PacketRequest(cfg, k, data));
      if !ok {
        AttemptReads(cfg, k - 1);
        return k - 1;
      }
    }
    AttemptReads(cfg, total);
    packets := total;
  }

  /**
   What the server reads in the k-th request: the sizes of ciphertext and file, the number of the packet and of all
   packets, and the piece of a mebibyte that it stands for.
   */
  ghost predicate IsPacket(cfg: Config, r: ClientRequest, k: nat) {
    && r.SendFile? && 1 <= k && (k - 1) * 1048576 < |cfg.encrypted|
    && GetFilePayload(r.payload) ==
         if IsAscii(Seen(cfg.name)) then
           FilePayload(|cfg.encrypted|, |cfg.content|, k, (|cfg.encrypted| + 1048575) / 1048576, Seen(cfg.name),
                       cfg.encrypted[(k - 1) * 1048576..Min(k * 1048576, |cfg.encrypted|)])
         else NotAscii
  }

  ghost predicate ArePackets(cfg: Config, rs: seq<ClientRequest>) {
    forall i :: 0 <= i < |rs| ==> IsPacket(cfg, rs[i], i + 1)
  }

  lemma AttemptReads(cfg: Config, packets: nat)
    requires cfg.Valid() && packets <= cfg.Total()
    ensures ArePackets(cfg, Attempt(cfg)[..packets])
  {
    hide Attempt, PacketRequest, PacketData, IsPacket, TotalPackets;
    forall i | 0 <= i < packets
      ensures IsPacket(cfg, Attempt(cfg)[i], i + 1)
    {
      PacketReads(cfg, i + 1);
      PacketAt(cfg, i);
    }
  }

  lemma PacketAt(cfg: Config, i: nat)
    requires i < cfg.Total()
    ensures Attempt(cfg)[i] == PacketRequest(cfg, i + 1, PacketData(cfg.encrypted, i + 1))
  {
    hide PacketRequest, PacketData;
  }

  lemma PacketReads(cfg: Config, k: nat)
    requires cfg.Valid() && 1 <= k <= cfg.Total()
    ensures IsPacket(cfg, PacketRequest(cfg, k, PacketData(cfg.encrypted, k)), k)
  {
    hide PackFile, GetFilePayload, Decode, Seen, IsAscii;
    WidthsSuffice(|cfg.encrypted|);
    OffsetInside(|cfg.encrypted|, k);
    FilePayloadRoundTrip(FilePayload(|cfg.encrypted|, |cfg.content|, k, cfg.Total(), cfg.name,
                                     PacketData(cfg.encrypted, k)));
  }

  /** There are as many packets as it takes pieces of a mebibyte to hold the ciphertext. */
  lemma PacketsSuffice(cfg: Config)
    requires cfg.Valid()
    ensures (cfg.Total() - 1) * 1048576 < |cfg.encrypted| <= cfg.Total() * 1048576
  {
  }

  lemma AttemptAt(cfg: Config, k: nat)
    requires 1 <= k <= cfg.Total()
    ensures Attempt(cfg)[..k] == Attempt(cfg)[..k - 1] + [PacketRequest(cfg, k, PacketData(cfg.encrypted, k))]
    ensures Attempt(cfg)[..0] == [] && (k == cfg.Total() ==> Attempt(cfg)[..k] == Attempt(cfg))
  {
    hide PacketRequest, PacketData;
  }

  lemma OffsetInside(length: nat, k: nat)
    requires 0 < length <= 0x8000_0000 && 1 <= k <= TotalPackets(length)
    ensures 0 <= (k - 1) * PACKET_SIZE < length && EndOf(length, k - 1) == (k - 1) * PACKET_SIZE
    ensures EndOf(length, k) == (k - 1) * PACKET_SIZE +
        Min(PACKET_SIZE, (length - (k - 1) * PACKET_SIZE) % 0x1_0000_0000)
  {
  }

  /**
   The retry loop. What comes back decides what goes out: the script up to one of its ends, the one to which the
   answers lead; an exception comes from the connection or from an answer other than FileOK.
   */
  method SendFile(link: Link, cfg: Config) returns (end: Client)
    requires cfg.Valid() && link.sent == [] && link.received == [] && !link.raised
    modifies link
    ensures end.Done? || end.Aborted? || end.Failed? || end.AwaitAck?
    ensures InAttempts(cfg, end) && link.sent == Script(cfg, end) && Answers(cfg, end, link.received)
    ensures end.Done? || end.Aborted? ==> !link.raised
    ensures end.AwaitAck? ==> link.raised
    ensures end.Failed? ==> link.raised || Refused(end, link.received)
  {
    hide Attempt, TotalPackets, NameField, Tries;
    var myCRC := Crc.MemcrcCpp(cfg.content);
    end := Packet(1, 1);
    NoneSent(cfg);
    for attempt := 1 to MAX_RETRIES + 1
      invariant end == if attempt <= MAX_RETRIES then Packet(attempt, 1) else Aborting
      invariant !link.raised && link.sent == Script(cfg, end) && Answers(cfg, end, link.received)
    {
      end := TryOnce(link, cfg, attempt, myCRC);
      if !end.Packet? && !end.Aborting? {
        return;
      }
    }
    var ok := link.Send(CRCBadDone(NameField(cfg.name)));
    end := if ok then Aborted else Failed(MAX_RETRIES, cfg.Total());
    AllPackets(cfg);
  }

  lemma NoneSent(cfg: Config)
    ensures Tries(cfg, 0) == [] && Attempt(cfg)[..0] == []
  {
    hide Attempt;
  }

  lemma AllPackets(cfg: Config)
    ensures Attempt(cfg)[..cfg.Total()] == Attempt(cfg)
  {
    hide PacketRequest, PacketData;
  }

  /** The body of the loop; it ends where the next attempt, the abort or one of the ends comes. */
  method TryOnce(link: Link, cfg: Config, attempt: nat, myCRC: bv32) returns (end: Client)
    requires cfg.Valid() && myCRC == cfg.Checksum() && 1 <= attempt <= MAX_RETRIES && !link.raised
    requires link.sent == Script(cfg, Packet(attempt, 1)) && Answers(cfg, Packet(attempt, 1), link.received)
    modifies link
    ensures || end.Done? || end.Failed? || end.AwaitAck?
            || end == if attempt < MAX_RETRIES then Packet(attempt + 1, 1) else Aborting
    ensures InAttempts(cfg, end) && link.sent == Script(cfg, end) && Answers(cfg, end, link.received)
    ensures end.Done? || end.Aborting? || end.Packet? ==> !link.raised
    ensures end.AwaitAck? ==> link.raised
    ensures end.Failed? ==> link.raised || Refused(end, link.received)
  {
    hide Attempt, TotalPackets, NameField;
    NoneSent(cfg);
    AllPackets(cfg);
    assert link.sent == Tries(cfg, attempt - 1);
    var packets := TransferFileInPackets(link, cfg);
    if packets < cfg.Total() {
      return Failed(attempt, packets);
    }
    var reply := link.Receive();
    if reply.None? || !reply.value.FileOK? {
      return Failed(attempt, packets);
    }
    end := Conclude(link, cfg, attempt, reply.value.crc == myCRC);
  }

  /** What follows the answer to an attempt. */
  method Conclude(link: Link, cfg: Config, attempt: nat, right: bool) returns (end: Client)
    requires cfg.Valid() && 1 <= attempt <= MAX_RETRIES && !link.raised
    requires link.sent == Tries(cfg, attempt - 1) + Attempt(cfg) && |link.received| == attempt
    requires AllWrong(cfg, link.received, attempt - 1)
    requires if right then Right(cfg, link.received[attempt - 1]) else Wrong(cfg, link.received[attempt - 1])
    modifies link
    ensures || end.Done? || end.Failed? || end.AwaitAck?
            || end == if attempt < MAX_RETRIES then Packet(attempt + 1, 1) else Aborting
    ensures InAttempts(cfg, end) && link.sent == Script(cfg, end) && Answers(cfg, end, link.received)
    ensures end.Done? || end.Aborting? || end.Packet? ==> !link.raised
    ensures end.AwaitAck? || end.Failed? ==> link.raised
  {
    hide Attempt, TotalPackets, NameField, Wrong, Right;
    NoneSent(cfg);
    AllPackets(cfg);
    if right {
      var ok := link.Send(CRCOK(NameField(cfg.name)));
      if !ok {
        return Failed(attempt, cfg.Total());
      }
      var ack := link.Receive();
      return if ack.Some? then Done(attempt) else AwaitAck(attempt);
    }
    if attempt < MAX_RETRIES {
      var ok := link.Send(CRCBadResend);
      if !ok {
        return Failed(attempt, cfg.Total());
      }
      return Packet(attempt + 1, 1);
    }
    end := Aborting;
  }

  // ---------- what the server makes of it ----------

  lemma FinishNext(c: Crypto, id: seq<bv8>, v: View, task: Task)
    requires !task.Idle? && !task.Dead?
    ensures var n := Step(c, id, v, task);
            Finish(c, id, v, task) == if n.task.Idle? || n.task.Dead? then n else Finish(c, id, n.view, n.task)
  {
    hide Step;
  }

  lemma PacketStarts(cfg: Config, k: nat, data: Data)
    requires cfg.Valid() && 1 <= k <= cfg.Total()
    ensures Start(PacketRequest(cfg, k, data)) ==
      if !IsAscii(Seen(cfg.name)) then (Dead, None)
      else
        var chunk := Chunk(cfg.Stored(), k, cfg.Total(), data);
        (if k == 1 then MakeDirectory(chunk) else OpenFile(chunk), None)
  {
    hide PackFile, GetFilePayload, Decode, Seen, IsAscii;
    WidthsSuffice(|cfg.encrypted|);
    FilePayloadRoundTrip(FilePayload(|cfg.encrypted|, |cfg.content|, k, cfg.Total(), cfg.name, data));
  }

  /** The file is opened, and the packet is behind what was there. */
  lemma PacketIsSaved(c: Crypto, id: seq<bv8>, v: View, chunk: Chunk)
    requires IsFileName(chunk.name) && (chunk.packetNumber != 1 ==> v.dir && chunk.name in v.files)
    ensures var all := (if chunk.packetNumber == 1 then [] else v.files[chunk.name]) + chunk.data;
            var w := v.(dir := true, files := v.files[chunk.name := all]);
            Finish(c, id, v, if chunk.packetNumber == 1 then MakeDirectory(chunk) else OpenFile(chunk))
            == if chunk.packetNumber == chunk.totalPackets then Finish(c, id, w, SelectKey(chunk))
                else Next(w, Idle, None)
  {
    hide Finish;
    var v1 := v.(dir := true);
    if chunk.packetNumber == 1 {
      FinishNext(c, id, v, MakeDirectory(chunk));
      FinishNext(c, id, v1, OpenFile(chunk));
      var v2 := v1.(files := v.files[chunk.name := []]);
      FinishNext(c, id, v2, WriteFile(chunk));
      assert v.files[chunk.name := []][chunk.name := [] + chunk.data] == v.files[chunk.name := [] + chunk.data];
    } else {
      assert v1 == v;
      FinishNext(c, id, v, OpenFile(chunk));
      FinishNext(c, id, v, WriteFile(chunk));
    }
  }

  /**
   The file is decrypted in place; without a key, with the wrong contents, or with too long a path an error
   is sent.
   */
  lemma FileIsProcessed(c: Crypto, id: seq<bv8>, v: View, chunk: Chunk, key: Option<Data>)
    requires chunk.name in v.files && |chunk.name| <= NAME_LEN
    requires key == if v.row.Some? then NonEmpty(v.row.value.aes) else None
    ensures var all, path := v.files[chunk.name], PathOf(id, chunk.name);
            Finish(c, id, v, SelectKey(chunk)) ==
              if key.None? || c.decrypt(key.value, all).None? then Fail(v)
              else
                var plain := c.decrypt(key.value, all).value;
                var w := v.(files := v.files[chunk.name := plain]);
                if |path| > NAME_LEN then Fail(w)
                else
                  Next(w.(rows := v.rows + [FileRow(chunk.name, path, false)]), Idle,
                       Some(Confirm(|all|, chunk.name, Cksum(plain))))
  {
    hide Finish, PathOf, Confirm, Cksum;
    FinishNext(c, id, v, SelectKey(chunk));
    if key.Some? {
      var all := v.files[chunk.name];
      FinishNext(c, id, v, ReadFile(chunk, key.value));
      if c.decrypt(key.value, all).Some? {
        var plain := c.decrypt(key.value, all).value;
        FinishNext(c, id, v, TruncateFile(chunk, |all|, plain));
        var v1 := v.(files := v.files[chunk.name := []]);
        FinishNext(c, id, v1, StoreFile(chunk, |all|, plain));
        assert v.files[chunk.name := []][chunk.name := plain] == v.files[chunk.name := plain];
        FinishNext(c, id, v.(files := v.files[chunk.name := plain]), InsertFile(chunk, |all|, Cksum(plain)));
      }
    }
  }

  // ---------- the run ----------

  /**
   The client, the replies it read and the requests it sent, how many of them were handled, replies under way with
   the number of the request they answer, and the server.
   */
  datatype World = World(client: Client, read: seq<Reply>, sent: seq<ClientRequest>, handled: nat, alive: bool,
                         replies: seq<(nat, Reply)>, view: View)

  function Begin(v: View): World {
    World(Packet(1, 1), [], [], 0, true, [], v)
  }

  /** What the client does next, if it need not wait. */
  function ClientStep(cfg: Config, w: World): Option<World> {
    match w.client
    case Packet(a, k) =>
      if k == 0 then None
      else
        Some(w.(sent := w.sent + [PacketRequest(cfg, k, PacketData(cfg.encrypted, k))],
                client := if k < cfg.Total() then Packet(a, k + 1) else AwaitFile(a)))
    case AwaitFile(a) =>
      if w.replies != [] then
        var r := w.replies[0].1;
        Some(w.(replies := w.replies[1..], read := w.read + [r],
                client := if !r.FileOK? then Failed(a, cfg.Total())
                          else if r.crc == cfg.Checksum() then Confirming(a)
                          else if a < MAX_RETRIES then Resending(a) else Aborting))
      else if !w.alive then Some(w.(client := Failed(a, cfg.Total()))) else None
    case Confirming(a) => Some(w.(sent := w.sent + [Verdict(cfg, true)], client := AwaitAck(a)))
    case AwaitAck(a) =>
      if w.replies != [] then
        Some(w.(replies := w.replies[1..], read := w.read + [w.replies[0].1], client := Done(a)))
      else None
    case Resending(a) => Some(w.(sent := w.sent + [CRCBadResend], client := Packet(a + 1, 1)))
    case Aborting => Some(w.(sent := w.sent + [Verdict(cfg, false)], client := Aborted))
    case Done(_) => None
    case Aborted => None
    case Failed(_, _) => None
  }

  /** The server handles the next request, in the form in which it arrived. */
  function ServerStep(cfg: Config, w: World, got: ClientRequest): World {
    var n := Handle(cfg.crypto, cfg.id, w.view, got);
    w.(handled := w.handled + 1, alive := !n.task.Dead?, view := n.view,
       replies := w.replies + (if n.reply.Some? then [(w.handled + 1, n.reply.value)] else []))
  }

  /** In flight the data of a packet may be replaced, but not its header. */
  ghost predicate Arrives(faulty: bool, sent: ClientRequest, got: ClientRequest) {
    || got == sent
    || (faulty && sent.SendFile? && got.SendFile? && |sent.payload| >= REQ_FILE_HEADER_SIZE
        && |got.payload| >= REQ_FILE_HEADER_SIZE
        && got.payload[..REQ_FILE_HEADER_SIZE] == sent.payload[..REQ_FILE_HEADER_SIZE])
  }

  ghost predicate Serves(cfg: Config, faulty: bool, w: World, got: ClientRequest) {
    w.alive && w.handled < |w.sent| && Arrives(faulty, w.sent[w.handled], got)
  }

  /** Sending a packet raises once the server has closed the connection. */
  predicate SendRaises(w: World, w': World) {
    !w.alive && w.client.Packet? && w.client.number > 0
    && w' == w.(client := Failed(w.client.attempt, w.client.number - 1))
  }

  ghost predicate Moves(cfg: Config, faulty: bool, w: World, w': World) {
    || ClientStep(cfg, w) == Some(w')
    || SendRaises(w, w')
    || exists got :: Serves(cfg, faulty, w, got) && w' == ServerStep(cfg, w, got)
  }

  // ---------- what every step keeps ----------

  function Base(cfg: Config, a: nat): nat
    requires a > 0
  {
    |Tries(cfg, a - 1)|
  }

  /** The stored file has the checksum of the client's. */
  predicate Checked(cfg: Config, v: View) {
    cfg.Stored() in v.files && Cksum(v.files[cfg.Stored()]) == cfg.Checksum()
  }

  /**
   During an attempt: of those before it only the last message may be waiting, and once a packet was handled
   there is a file.
   */
  predicate During(cfg: Config, w: World, a: nat)
    requires a > 0
  {
    && Base(cfg, a) <= w.handled + 1 && w.handled <= |w.sent|
    && (w.alive && w.handled > Base(cfg, a) ==> w.view.dir && cfg.Stored() in w.view.files)
  }

  predicate Phase(cfg: Config, w: World)
    requires InAttempts(cfg, w.client)
  {
    match w.client
    case Packet(a, _) => During(cfg, w, a) && w.replies == []
    case AwaitFile(a) =>
      && During(cfg, w, a)
      && if w.alive && w.handled == |w.sent| then |w.replies| == 1 && w.replies[0].0 == |w.sent| && Reported(cfg, w)
         else w.replies == []
    case Confirming(_) => Answered(w) && Checked(cfg, w.view)
    case Resending(_) => Answered(w)
    case Aborting => Answered(w)
    case AwaitAck(_) =>
      && w.alive && Checked(cfg, w.view)
      && if w.handled == |w.sent| then w.replies == [(|w.sent|, MessageACK)]
         else w.handled + 1 == |w.sent| && w.replies == []
    case Done(_) => Answered(w) && Checked(cfg, w.view)
    case Aborted => 0 < w.handled <= |w.sent| <= w.handled + 1
    case Failed(_, _) =>
      && w.handled <= |w.sent| && (w.handled == |w.sent| || !w.alive)
      && (|w.read| < w.client.attempt || Refused(w.client, w.read))
  }

  predicate Answered(w: World) {
    w.alive && w.handled == |w.sent| && w.replies == []
  }

  /** The checksum under way is that of the stored file. */
  predicate Reported(cfg: Config, w: World)
    requires |w.replies| == 1
  {
    var r := w.replies[0].1;
    r.FileOK? ==> cfg.Stored() in w.view.files && r.crc == Cksum(w.view.files[cfg.Stored()])
  }

  predicate Inv(cfg: Config, w: World) {
    && InAttempts(cfg, w.client) && w.sent == Script(cfg, w.client) && Answers(cfg, w.client, w.read)
    && (w.alive && w.handled > 0 ==> IsAscii(Seen(cfg.name)))
    && Phase(cfg, w)
  }

  lemma BeginInv(cfg: Config, v: View)
    requires cfg.Valid()
    ensures Inv(cfg, Begin(v))
  {
    hide Attempt;
    assert Tries(cfg, 0) + Attempt(cfg)[..0] == [];
  }

  lemma ClientKeepsInv(cfg: Config, w: World)
    requires cfg.Valid() && Inv(cfg, w) && ClientStep(cfg, w).Some?
    ensures Inv(cfg, ClientStep(cfg, w).value)
  {
    hide Script, Attempt, PacketRequest, PacketData, Verdict, Cksum, IsAscii, Seen, Decode, Checked, Reported, Tries;
    ScriptGoesOn(cfg, w);
    ReportChecks(cfg, w);
    SomethingSent(cfg, w.client);
    NextBase(cfg, w.client);
  }

  lemma RaisingKeepsInv(cfg: Config, w: World, w': World)
    requires cfg.Valid() && Inv(cfg, w) && SendRaises(w, w')
    ensures Inv(cfg, w')
  {
    hide Attempt, IsAscii, Seen, Tries;
    NextBase(cfg, w.client);
  }

  /** What is sent next continues the script. */
  lemma ScriptGoesOn(cfg: Config, w: World)
    requires cfg.Valid() && InAttempts(cfg, w.client) && ClientStep(cfg, w).Some?
    ensures var w' := ClientStep(cfg, w).value;
            InAttempts(cfg, w'.client) && (w.sent == Script(cfg, w.client) ==> w'.sent == Script(cfg, w'.client))
  {
    hide Attempt, PacketRequest, PacketData, Verdict, Cksum, NameField, IsAscii, Seen, Decode, TotalPackets, Tries;
    AllPackets(cfg);
    match w.client
    case Packet(a, k) =>
      OnePacketMore(cfg, Tries(cfg, a - 1), k);
    case Resending(a) =>
      OneTryMore(cfg, a);
    case _ =>
  }

  lemma OnePacketMore(cfg: Config, before: seq<ClientRequest>, k: nat)
    requires 1 <= k <= cfg.Total()
    ensures before + Attempt(cfg)[..k - 1] + [PacketRequest(cfg, k, PacketData(cfg.encrypted, k))]
         == before + Attempt(cfg)[..k]
  {
    hide Attempt, PacketRequest, PacketData;
    AttemptAt(cfg, k);
  }

  lemma OneTryMore(cfg: Config, a: nat)
    requires a > 0
    ensures Tries(cfg, a - 1) + Attempt(cfg) + [CRCBadResend] == Tries(cfg, a) + Attempt(cfg)[..0]
  {
    hide Attempt;
  }

  lemma SomethingSent(cfg: Config, client: Client)
    requires InAttempts(cfg, client)
    ensures client.Aborting? || client.AwaitFile? ==> |Script(cfg, client)| > 0
  {
    hide Attempt;
  }

  lemma NextBase(cfg: Config, client: Client)
    requires InAttempts(cfg, client)
    ensures client.Resending? ==> |Script(cfg, client)| + 1 == Base(cfg, client.attempt + 1)
    ensures client.Packet? ==> Base(cfg, client.attempt) <= |Script(cfg, client)|
  {
    hide Attempt;
  }

  lemma ReportChecks(cfg: Config, w: World)
    ensures |w.replies| == 1 && Reported(cfg, w) && w.replies[0].1.FileOK? && w.replies[0].1.crc == cfg.Checksum() ==>
      Checked(cfg, w.view)
  {
  }

  /** What the next request is that the server handles during an attempt. */
  lemma NextRequest(cfg: Config, w: World, a: nat)
    requires cfg.Valid() && Inv(cfg, w) && w.handled < |w.sent|
    requires w.client.AwaitFile? || w.client.Packet?
    requires a == w.client.attempt
    ensures var i := w.handled - Base(cfg, a);
            if i < 0 then w.handled > 0 && w.sent[w.handled] == CRCBadResend
            else
              && i < cfg.Total() && w.sent[w.handled] == PacketRequest(cfg, i + 1, PacketData(cfg.encrypted, i + 1))
              && (i + 1 == cfg.Total() ==> w.client.AwaitFile? && w.handled + 1 == |w.sent|)
    ensures w.client.AwaitFile? ==> |w.sent| == Base(cfg, a) + cfg.Total()
  {
    hide PacketRequest, PacketData, IsAscii, Seen, Cksum;
  }

  /** A packet on arrival is a packet of the same number, whatever is in it. */
  lemma ArrivingPacket(cfg: Config, faulty: bool, k: nat, data: Data, got: ClientRequest) returns (d: Data)
    requires Arrives(faulty, PacketRequest(cfg, k, data), got)
    ensures got == PacketRequest(cfg, k, d) && (!faulty ==> d == data)
  {
    var sent := PacketRequest(cfg, k, data);
    if got == sent {
      d := data;
    } else {
      d := got.payload[REQ_FILE_HEADER_SIZE..];
      HeaderAndData(|cfg.encrypted|, |cfg.content|, k, cfg.Total(), cfg.name, data, got.payload);
    }
  }

  lemma HeaderAndData(size: nat, original: nat, k: nat, total: nat, name: seq<bv8>, data: Data, payload: Data)
    requires |payload| >= REQ_FILE_HEADER_SIZE
    requires payload[..REQ_FILE_HEADER_SIZE]
          == PackFile(FilePayload(size, original, k, total, name, data))[..REQ_FILE_HEADER_SIZE]
    ensures payload == PackFile(FilePayload(size, original, k, total, name, payload[REQ_FILE_HEADER_SIZE..]))
  {
    hide LittleEndian.Pack, NameField;
    var d := payload[REQ_FILE_HEADER_SIZE..];
    var p, q := PackFile(FilePayload(size, original, k, total, name, data)),
        PackFile(FilePayload(size, original, k, total, name, d));
    assert p[..REQ_FILE_HEADER_SIZE] == q[..REQ_FILE_HEADER_SIZE];
    assert payload == payload[..REQ_FILE_HEADER_SIZE] + d;
    assert q == q[..REQ_FILE_HEADER_SIZE] + d;
  }

  /** The server after a packet: nothing is wrong with a name it can read. */
  lemma PacketHandled(cfg: Config, v: View, k: nat, data: Data)
    requires cfg.Valid() && 1 <= k <= cfg.Total() && IsAscii(Seen(cfg.name))
    requires k > 1 ==> v.dir && cfg.Stored() in v.files
    ensures var n := Handle(cfg.crypto, cfg.id, v, PacketRequest(cfg, k, data));
            && n.task == Idle && n.view.dir && cfg.Stored() in n.view.files
            && (n.reply.Some? <==> k == cfg.Total())
            && (n.reply.Some? && n.reply.value.FileOK? ==> n.reply.value.crc == Cksum(n.view.files[cfg.Stored()]))
            && (n.view.rows == v.rows ||
                n.view.rows == v.rows + [FileRow(cfg.Stored(), PathOf(cfg.id, cfg.Stored()), false)])
  {
    hide Finish, PacketRequest, Decode, Seen, IsAscii, PathOf, Cksum;
    var chunk := Chunk(cfg.Stored(), k, cfg.Total(), data);
    PacketStarts(cfg, k, data);
    PacketIsSaved(cfg.crypto, cfg.id, v, chunk);
    if k == cfg.Total() {
      var all := (if k == 1 then [] else v.files[chunk.name]) + data;
      var w := v.(dir := true, files := v.files[chunk.name := all]);
      ShortName(cfg);
      FileIsProcessed(cfg.crypto, cfg.id, w, chunk, if v.row.Some? then NonEmpty(v.row.value.aes) else None);
    }
  }

  lemma ShortName(cfg: Config)
    ensures |cfg.Stored()| < NAME_LEN
  {
  }

  lemma UnreadableName(cfg: Config, v: View, k: nat, data: Data)
    requires cfg.Valid() && 1 <= k <= cfg.Total() && !IsAscii(Seen(cfg.name))
    ensures Handle(cfg.crypto, cfg.id, v, PacketRequest(cfg, k, data)) == Next(v, Dead, None)
  {
    hide PacketRequest, Seen, IsAscii;
    PacketStarts(cfg, k, data);
  }

  lemma VerdictHandled(cfg: Config, v: View)
    requires cfg.Valid() && IsAscii(Seen(cfg.name))
    ensures Handle(cfg.crypto, cfg.id, v, Verdict(cfg, true))
         == Next(v.(rows := Verify(v.rows, cfg.Stored())), Idle, Some(MessageACK))
  {
    hide IsAscii, Decode, Verify;
    NameFieldRoundTrip(cfg.name);
    assert NameField(cfg.name)[..NAME_LEN] == NameField(cfg.name);
    FinishNext(cfg.crypto, cfg.id, v, UpdateVerified(cfg.Stored()));
  }

  lemma ServerKeepsInv(cfg: Config, faulty: bool, w: World, got: ClientRequest)
    requires cfg.Valid() && Inv(cfg, w) && Serves(cfg, faulty, w, got)
    ensures Inv(cfg, ServerStep(cfg, w, got))
  {
    hide Handle, Script, Attempt, PacketRequest, PacketData, Verdict, Cksum, IsAscii, Seen, Decode, Tries;
    match w.client
    case Packet(a, _) => AttemptServed(cfg, faulty, w, a, got);
    case AwaitFile(a) => AttemptServed(cfg, faulty, w, a, got);
    case AwaitAck(_) =>
      LastIsVerdict(cfg, w);
      VerdictHandled(cfg, w.view);
    case _ =>
  }

  lemma LastIsVerdict(cfg: Config, w: World)
    requires Inv(cfg, w) && w.client.AwaitAck?
    ensures |w.sent| > 1 && w.sent[|w.sent| - 1] == Verdict(cfg, true) && !Verdict(cfg, true).SendFile?
  {
    hide Attempt, Tries, NameField;
  }

  lemma AttemptServed(cfg: Config, faulty: bool, w: World, a: nat, got: ClientRequest)
    requires cfg.Valid() && Inv(cfg, w) && Serves(cfg, faulty, w, got)
    requires (w.client.AwaitFile? || w.client.Packet?) && a == w.client.attempt
    ensures Inv(cfg, ServerStep(cfg, w, got))
  {
    hide Handle, Script, Attempt, PacketRequest, PacketData, Verdict, Cksum, IsAscii, Seen, Decode, Tries;
    NextRequest(cfg, w, a);
    var i := w.handled - Base(cfg, a);
    if i < 0 {
      NothingToResend(cfg, w.view);
    } else {
      var data := ArrivingPacket(cfg, faulty, i + 1, PacketData(cfg.encrypted, i + 1), got);
      if IsAscii(Seen(cfg.name)) {
        PacketHandled(cfg, w.view, i + 1, data);
      } else {
        UnreadableName(cfg, w.view, i + 1, data);
      }
    }
  }

  lemma NothingToResend(cfg: Config, v: View)
    ensures Handle(cfg.crypto, cfg.id, v, CRCBadResend) == Next(v, Idle, None)
  {
  }

  lemma MovesKeepInv(cfg: Config, faulty: bool, w: World, w': World)
    requires cfg.Valid() && Inv(cfg, w) && Moves(cfg, faulty, w, w')
    ensures Inv(cfg, w')
  {
    hide Inv, ServerStep, ClientStep, Serves;
    if ClientStep(cfg, w) == Some(w') {
      ClientKeepsInv(cfg, w);
    } else if SendRaises(w, w') {
      RaisingKeepsInv(cfg, w, w');
    } else {
      var got :| Serves(cfg, faulty, w, got) && w' == ServerStep(cfg, w, got);
      ServerKeepsInv(cfg, faulty, w, got);
    }
  }

  // ---------- results ----------

  ghost predicate IsRun(cfg: Config, faulty: bool, v: View, run: seq<World>) {
    && run != [] && run[0] == Begin(v)
    && forall i :: 0 < i < |run| ==> Moves(cfg, faulty, run[i - 1], run[i])
  }

  /**
   In every run, with any packets altered on their way, what was sent is always the script of where the client is:
   at most four attempts, 901 between them and nowhere else, and in the end one 900, one 902, or an exception.
   */
  lemma {:induction false} RunsFollowTheScript(cfg: Config, faulty: bool, v: View, run: seq<World>, i: nat)
    requires cfg.Valid() && IsRun(cfg, faulty, v, run) && i < |run|
    ensures Inv(cfg, run[i])
    ensures InAttempts(cfg, run[i].client) && run[i].sent == Script(cfg, run[i].client)
    ensures Answers(cfg, run[i].client, run[i].read)
  {
    hide Phase, Moves, Script, Answers;
    if i == 0 {
      BeginInv(cfg, v);
    } else {
      RunsFollowTheScript(cfg, faulty, v, run, i - 1);
      MovesKeepInv(cfg, faulty, run[i - 1], run[i]);
    }
  }

  /** Whenever the client reads a reply it is the only one, and it answers the last request sent. */
  lemma RepliesAnswerTheLastRequest(cfg: Config, faulty: bool, v: View, run: seq<World>, i: nat)
    requires cfg.Valid() && IsRun(cfg, faulty, v, run) && 0 < i < |run|
    requires run[i - 1].replies != [] && run[i].replies == run[i - 1].replies[1..] && run[i].client != run[i - 1].client
    ensures |run[i - 1].replies| == 1 && run[i - 1].replies[0].0 == |run[i - 1].sent|
    ensures run[i - 1].handled == |run[i - 1].sent|
  {
    hide Moves, Script;
    RunsFollowTheScript(cfg, faulty, v, run, i - 1);
    ReadsOnlyWhenWaiting(cfg, faulty, run[i - 1], run[i]);
  }

  lemma ReadsOnlyWhenWaiting(cfg: Config, faulty: bool, w: World, w': World)
    requires Moves(cfg, faulty, w, w') && w.replies != [] && w'.replies == w.replies[1..] && w'.client != w.client
    ensures w.client.AwaitFile? || w.client.AwaitAck?
  {
    hide ServerStep, PacketRequest, Verdict;
    if ClientStep(cfg, w) == Some(w') {
      assert |w.replies[1..]| != |w.replies|;
    } else {
      var got :| Serves(cfg, faulty, w, got) && w' == ServerStep(cfg, w, got);
      ServerLeavesClient(cfg, w, got);
    }
  }

  lemma ServerLeavesClient(cfg: Config, w: World, got: ClientRequest)
    ensures ServerStep(cfg, w, got).client == w.client
  {
    hide Handle;
  }

  predicate NewlyVerified(before: View, after: View, j: nat) {
    j < |after.rows| && after.rows[j].verified && (j < |before.rows| ==> !before.rows[j].verified)
  }

  /** At the step that verifies a row, the file it names is stored with the checksum of the client's. */
  lemma VerifiedFilesAreChecked(cfg: Config, faulty: bool, w: World, w': World, j: nat)
    requires cfg.Valid() && Inv(cfg, w) && Moves(cfg, faulty, w, w') && NewlyVerified(w.view, w'.view, j)
    ensures w.client.AwaitAck? && w'.view.rows[j].filename == cfg.Stored() && Checked(cfg, w'.view)
  {
    hide Script, Attempt, PacketRequest, PacketData, Cksum, IsAscii, Seen, Decode, Tries, Handle, Verdict, PathOf;
    if ClientStep(cfg, w) == Some(w') {
      ClientLeavesServer(cfg, w);
    } else {
      var got :| Serves(cfg, faulty, w, got) && w' == ServerStep(cfg, w, got);
      match w.client
      case Packet(a, _) => AttemptVerifiesNothing(cfg, faulty, w, a, got);
      case AwaitFile(a) => AttemptVerifiesNothing(cfg, faulty, w, a, got);
      case AwaitAck(_) =>
        LastIsVerdict(cfg, w);
        VerdictHandled(cfg, w.view);
      case Aborted =>
        AbortVerifiesNothing(cfg, w);
      case _ =>
    }
  }

  lemma ClientLeavesServer(cfg: Config, w: World)
    ensures ClientStep(cfg, w).Some? ==> ClientStep(cfg, w).value.view == w.view
  {
    hide PacketRequest, Verdict;
  }

  lemma AttemptVerifiesNothing(cfg: Config, faulty: bool, w: World, a: nat, got: ClientRequest)
    requires cfg.Valid() && Inv(cfg, w) && Serves(cfg, faulty, w, got)
    requires (w.client.AwaitFile? || w.client.Packet?) && a == w.client.attempt
    ensures forall j :: !NewlyVerified(w.view, ServerStep(cfg, w, got).view, j)
  {
    hide Handle, Script, Attempt, PacketRequest, PacketData, Verdict, Cksum, IsAscii, Seen, Decode, Tries, PathOf;
    NextRequest(cfg, w, a);
    var i := w.handled - Base(cfg, a);
    if i < 0 {
      NothingToResend(cfg, w.view);
    } else {
      var data := ArrivingPacket(cfg, faulty, i + 1, PacketData(cfg.encrypted, i + 1), got);
      if IsAscii(Seen(cfg.name)) {
        PacketHandled(cfg, w.view, i + 1, data);
      } else {
        UnreadableName(cfg, w.view, i + 1, data);
      }
    }
  }

  lemma AbortVerifiesNothing(cfg: Config, w: World)
    requires cfg.Valid() && Inv(cfg, w) && w.client.Aborted? && w.handled < |w.sent|
    ensures !w.sent[w.handled].SendFile? && Handle(cfg.crypto, cfg.id, w.view, w.sent[w.handled]).view == w.view
  {
    hide Tries, Attempt, NameField, UpToZero, IsAscii;
    assert w.sent[w.handled] == Verdict(cfg, false);
  }

  /** So a verified file that differs from the client's within four consecutive octets at most does not differ. */
  lemma VerifiedFilesHoldNoBurst(cfg: Config, v: View, k: nat)
    requires Checked(cfg, v) && |v.files[cfg.Stored()]| == |cfg.content|
    requires forall i :: 0 <= i < |cfg.content| && (i < k || k + 4 <= i) ==> v.files[cfg.Stored()][i] == cfg.content[i]
    ensures v.files[cfg.Stored()] == cfg.content
  {
    hide Cksum, Decode, Seen;
    var stored := v.files[cfg.Stored()];
    if stored != cfg.content {
      DetectsFourOctets(stored, cfg.content, k);
    }
  }

  /** Every move brings the run closer to its end. */
  function Left(cfg: Config, client: Client): nat {
    match client
    case Packet(a, k) => Retries(cfg, a) + (if k < cfg.Total() then cfg.Total() - k else 0) + 4
    case AwaitFile(a) => Retries(cfg, a) + 3
    case Resending(a) => Retries(cfg, a) + 1
    case Confirming(_) => 2
    case Aborting => 2
    case AwaitAck(_) => 1
    case Done(_) => 0
    case Aborted => 0
    case Failed(_, _) => 0
  }

  function Retries(cfg: Config, a: nat): nat
    decreases MAX_RETRIES - a
  {
    if a >= MAX_RETRIES then 0 else cfg.Total() + 3 + Retries(cfg, a + 1)
  }

  function Measure(cfg: Config, w: World): int {
    4 * Left(cfg, w.client) + 2 * (|w.sent| - w.handled) + |w.replies|
  }

  lemma MovesComeToAnEnd(cfg: Config, faulty: bool, w: World, w': World)
    requires cfg.Valid() && Inv(cfg, w) && Moves(cfg, faulty, w, w')
    ensures 0 <= Measure(cfg, w') < Measure(cfg, w)
  {
    hide Inv, Handle, PacketRequest, PacketData, Verdict;
    MovesKeepInv(cfg, faulty, w, w');
    HandledWasSent(cfg, w);
    HandledWasSent(cfg, w');
    if ClientStep(cfg, w) == Some(w') {
      LeftDecreases(cfg, w);
    }
  }

  lemma HandledWasSent(cfg: Config, w: World)
    requires Inv(cfg, w)
    ensures w.handled <= |w.sent| && InAttempts(cfg, w.client)
  {
    hide Script, Checked, Reported, Tries, Seen, IsAscii;
  }

  lemma LeftDecreases(cfg: Config, w: World)
    requires InAttempts(cfg, w.client) && ClientStep(cfg, w).Some?
    ensures var w' := ClientStep(cfg, w).value;
            && Left(cfg, w'.client) < Left(cfg, w.client) && |w'.replies| <= |w.replies|
            && |w'.sent| <= |w.sent| + 1 && w'.handled == w.handled
  {
    hide PacketRequest, PacketData, Verdict, Cksum, TotalPackets;
  }

  predicate Ended(client: Client) {
    client.Done? || client.Aborted? || client.Failed?
  }

  /** A run that has not ended can go on. */
  lemma NeverStuck(cfg: Config, faulty: bool, w: World)
    requires Inv(cfg, w) && !Ended(w.client)
    ensures exists w' :: Moves(cfg, faulty, w, w')
  {
    hide Script, Checked, Reported, Tries, Seen, IsAscii, ServerStep, PacketRequest, PacketData, Verdict;
    if ClientStep(cfg, w).Some? {
      assert Moves(cfg, faulty, w, ClientStep(cfg, w).value);
    } else {
      var got := w.sent[w.handled];
      assert Serves(cfg, faulty, w, got);
      assert Moves(cfg, faulty, w, ServerStep(cfg, w, got));
    }
  }

  // ---------- without alterations ----------

  /** A name the server can read, and whose path its table can hold. */
  predicate Acceptable(cfg: Config) {
    IsAscii(Seen(cfg.name)) && |PathOf(cfg.id, cfg.Stored())| <= NAME_LEN
  }
  /** In terms of the client's file: its name is ASCII and has at most 214 octets. */
  lemma AcceptableNames(cfg: Config)
    requires |cfg.id| == CLIENT_ID_SIZE
    ensures Acceptable(cfg) <==> IsAscii(cfg.name) && |cfg.name| <= 214
  {
    hide Decode, BytesToHex;
    assert |UPLOAD_FOLDER + "/"| == 8;
    assert |PathOf(cfg.id, cfg.Stored())| == 41 + |Seen(cfg.name)|;
    if |cfg.name| <= 214 {
      assert Seen(cfg.name) == cfg.name;
    }
  }

  /** A name that the file system takes but the server's table does not: 215 letters. */
  lemma LongNameFails(cfg: Config, v: View, run: seq<World>)
    requires cfg.Valid() && HasKey(cfg, v) && IsRun(cfg, false, v, run) && Ended(run[|run| - 1].client)
    requires cfg.name == seq(215, _ => 0x61)
    ensures run[|run| - 1].client.Failed?
  {
    hide Moves, Clean;
    AcceptableNames(cfg);
    FirstAttempt(cfg, v, run, |run| - 1);
  }

  function Row(cfg: Config): FileRow {
    FileRow(cfg.Stored(), PathOf(cfg.id, cfg.Stored()), false)
  }

  /** The server when some packets are in, when the file is in, and when it is verified. */
  function PartIn(cfg: Config, v: View, k: nat): View {
    v.(dir := true, files := v.files[cfg.Stored() := cfg.encrypted[..EndOf(|cfg.encrypted|, k)]])
  }

  function FileIn(cfg: Config, v: View): View {
    v.(dir := true, files := v.files[cfg.Stored() := cfg.content], rows := v.rows + [Row(cfg)])
  }

  function FileVerified(cfg: Config, v: View): View {
    FileIn(cfg, v).(rows := Verify(FileIn(cfg, v).rows, cfg.Stored()))
  }

  /** What the run without alterations looks like: there is one attempt only. */
  predicate Clean(cfg: Config, v: View, w: World) {
    && Inv(cfg, w)
    && match w.client
       case Packet(a, _) => a == 1 && CleanAttempt(cfg, v, w)
       case AwaitFile(a) => a == 1 && CleanAttempt(cfg, v, w)
       case Confirming(a) => a == 1 && Acceptable(cfg) && w.view == FileIn(cfg, v)
       case AwaitAck(a) =>
         a == 1 && Acceptable(cfg) && w.view == if w.handled == |w.sent| then FileVerified(cfg, v) else FileIn(cfg, v)
       case Done(a) => a == 1 && Acceptable(cfg) && w.view == FileVerified(cfg, v)
       case Failed(_, _) => !Acceptable(cfg)
       case Resending(_) => false
       case Aborting => false
       case Aborted => false
  }

  predicate CleanAttempt(cfg: Config, v: View, w: World) {
    && (IsAscii(Seen(cfg.name)) ==> w.alive)
    && (w.handled == 0 ==> w.view == v)
    && (w.alive && 0 < w.handled < cfg.Total() ==> w.view == PartIn(cfg, v, w.handled))
    && (w.alive && w.handled == cfg.Total() ==>
          if Acceptable(cfg) then
            && w.view == FileIn(cfg, v)
            && |w.replies| == 1 && w.replies[0].1 == FileOK(|cfg.encrypted|, cfg.Stored(), cfg.Checksum())
          else |w.replies| == 1 && w.replies[0].1 == GeneralError)
  }

  /** The agreed key is in the client's row. */
  predicate HasKey(cfg: Config, v: View) {
    v.row.Some? && v.row.value.aes == Some(cfg.key)
  }

  /** The server after packet k of an attempt that is not disturbed. */
  lemma CleanPacket(cfg: Config, v: View, k: nat)
    requires cfg.Valid() && HasKey(cfg, v) && 1 <= k <= cfg.Total() && IsAscii(Seen(cfg.name))
    ensures var before := if k == 1 then v else PartIn(cfg, v, k - 1);
            var n := Handle(cfg.crypto, cfg.id, before, PacketRequest(cfg, k, PacketData(cfg.encrypted, k)));
            if k < cfg.Total() then n == Next(PartIn(cfg, v, k), Idle, None)
            else if Acceptable(cfg) then
              n == Next(FileIn(cfg, v), Idle, Some(FileOK(|cfg.encrypted|, cfg.Stored(), cfg.Checksum())))
            else n.task == Idle && n.reply == Some(GeneralError)
  {
    hide Finish, PacketRequest, PacketData, Decode, Seen, IsAscii, PathOf, Cksum, TotalPackets, EndOf, Start;
    var before := if k == 1 then v else PartIn(cfg, v, k - 1);
    var data := PacketData(cfg.encrypted, k);
    var chunk := Chunk(cfg.Stored(), k, cfg.Total(), data);
    PacketStarts(cfg, k, data);
    PacketIsSaved(cfg.crypto, cfg.id, before, chunk);
    PacketsJoin(cfg.encrypted, k);
    PartsJoin(cfg, v, k);
    if k == cfg.Total() {
      ShortName(cfg);
      FileIsProcessed(cfg.crypto, cfg.id, PartIn(cfg, v, k), chunk, Some(cfg.key));
      assert PartIn(cfg, v, k).files[cfg.Stored() := cfg.content] == v.files[cfg.Stored() := cfg.content];
    }
  }

  lemma PartsJoin(cfg: Config, v: View, k: nat)
    requires k > 0
    ensures var before := if k == 1 then v else PartIn(cfg, v, k - 1);
            var all := (if k == 1 then [] else before.files[cfg.Stored()]) + PacketData(cfg.encrypted, k);
            before.(dir := true, files := before.files[cfg.Stored() := all]) == PartIn(cfg, v, k)
  {
    hide PacketData;
    PacketsJoin(cfg.encrypted, k);
    var e := EndOf(|cfg.encrypted|, k - 1);
    if k == 1 {
      assert cfg.encrypted[..e] == [];
    }
    var part := cfg.encrypted[..e];
    assert v.files[cfg.Stored() := part][cfg.Stored() := cfg.encrypted[..EndOf(|cfg.encrypted|, k)]]
        == v.files[cfg.Stored() := cfg.encrypted[..EndOf(|cfg.encrypted|, k)]];
  }

  lemma CleanAttemptServed(cfg: Config, v: View, w: World)
    requires cfg.Valid() && HasKey(cfg, v) && Clean(cfg, v, w) && w.alive && w.handled < |w.sent|
    requires w.client.AwaitFile? || w.client.Packet?
    ensures Clean(cfg, v, ServerStep(cfg, w, w.sent[w.handled]))
  {
    hide Handle, Script, Attempt, PacketRequest, PacketData, Verdict, Cksum, IsAscii, Seen, Decode, PathOf;
    var got := w.sent[w.handled];
    ServerKeepsInv(cfg, false, w, got);
    NextRequest(cfg, w, 1);
    assert Base(cfg, 1) == 0;
    var k := w.handled + 1;
    hide Inv, PartIn, FileIn;
    if IsAscii(Seen(cfg.name)) {
      CleanPacket(cfg, v, k);
    } else {
      UnreadableName(cfg, w.view, k, PacketData(cfg.encrypted, k));
    }
  }

  lemma CleanMoves(cfg: Config, v: View, w: World, w': World)
    requires cfg.Valid() && HasKey(cfg, v) && Clean(cfg, v, w) && Moves(cfg, false, w, w')
    ensures Clean(cfg, v, w')
  {
    hide Handle, Script, Attempt, PacketRequest, PacketData, Cksum, IsAscii, Seen, Decode, PathOf, Verdict, FileIn;
    MovesKeepInv(cfg, false, w, w');
    if ClientStep(cfg, w) == Some(w') {
      if w.client.AwaitFile? {
        AllSent(cfg, w);
      }
    } else if SendRaises(w, w') {
      assert !IsAscii(Seen(cfg.name));
    } else {
      var got :| Serves(cfg, false, w, got) && w' == ServerStep(cfg, w, got);
      if w.client.AwaitFile? || w.client.Packet? {
        CleanAttemptServed(cfg, v, w);
      } else if w.client.AwaitAck? {
        LastIsVerdict(cfg, w);
        VerdictHandled(cfg, w.view);
      }
    }
  }

  lemma AllSent(cfg: Config, w: World)
    requires Inv(cfg, w) && w.client == AwaitFile(1)
    ensures |w.sent| == cfg.Total()
  {
    hide Attempt, PacketRequest;
  }

  /**
   Without alterations there is one attempt, and when the run has ended it has succeeded if and only if the
   name is acceptable: the stored file is the client's, and its row is verified.
   */
  lemma {:induction false} FirstAttempt(cfg: Config, v: View, run: seq<World>, i: nat)
    requires cfg.Valid() && HasKey(cfg, v) && IsRun(cfg, false, v, run) && i < |run|
    ensures Clean(cfg, v, run[i])
    ensures Ended(run[i].client) ==>
      if Acceptable(cfg) then run[i].client == Done(1) && run[i].view == FileVerified(cfg, v)
      else run[i].client.Failed?
  {
    hide Moves, Phase, Script, FileVerified, FileIn;
    if i == 0 {
      BeginInv(cfg, v);
    } else {
      FirstAttempt(cfg, v, run, i - 1);
      CleanMoves(cfg, v, run[i - 1], run[i]);
    }
  }

  lemma StoredAndVerified(cfg: Config, v: View)
    ensures var after := FileVerified(cfg, v);
            && after.files[cfg.Stored()] == cfg.content
            && |after.rows| == |v.rows| + 1 && after.rows[|v.rows|] == Row(cfg).(verified := true)
  {
  }
}
