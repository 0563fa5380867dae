/** When sendFile makes a further attempt, and that it may come to the last one. */
module Retries {
  import opened Crc
  import opened Framing
  import opened OctetValues
  import opened Options
  import opened Server
  import opened Transfer

  // ---------- which answers lead to a fourth attempt ----------

  predicate OnFourth(client: Client) {
    match client
    case Packet(a, _) => a == 4
    case AwaitFile(a) => a == 4
    case Confirming(a) => a == 4
    case AwaitAck(a) => a == 4
    case Resending(a) => a == 4
    case Done(a) => a == 4
    case Failed(a, _) => a == 4
    case Aborting => true
    case Aborted => true
  }

  /**
   A fourth attempt comes exactly if the first three answers were wrong checksums: the run is in it, or past it, or
   about to announce it with 901.
   */
  lemma FourthAttempt(cfg: Config, faulty: bool, v: View, run: seq<World>, i: nat)
    requires cfg.Valid() && IsRun(cfg, faulty, v, run) && i < |run|
    ensures AllWrong(cfg, run[i].read, 3) <==> OnFourth(run[i].client) || run[i].client == Resending(3)
    ensures Ended(run[i].client) ==> (AllWrong(cfg, run[i].read, 3) <==> OnFourth(run[i].client))
  {
    RunsFollowTheScript(cfg, faulty, v, run, i);
    hide IsRun, Script, During, Checked, Reported, IsAscii, Seen;
  }

  // ---------- a run with a fourth attempt ----------

  ghost predicate Reached(cfg: Config, v: View, w: World) {
    exists run :: IsRun(cfg, true, v, run) && run[|run| - 1] == w
  }

  lemma Onward(cfg: Config, v: View, w: World, w': World)
    requires Reached(cfg, v, w) && Moves(cfg, true, w, w')
    ensures Reached(cfg, v, w')
  {
    hide Moves;
    var run :| IsRun(cfg, true, v, run) && run[|run| - 1] == w;
    assert IsRun(cfg, true, v, run + [w']);
  }

  /** The server has the agreed key, and can decrypt other octets to a file with another checksum. */
  ghost predicate Misleads(cfg: Config, bad: Data) {
    && cfg.Valid() && Acceptable(cfg) && |bad| < 0x1_0000_0000 && cfg.crypto.decrypt(cfg.key, bad).Some?
    && Cksum(cfg.crypto.decrypt(cfg.key, bad).value) != cfg.Checksum()
  }

  /** An attempt before its packet k, with the wrong octets stored so far. */
  predicate Spoiled(cfg: Config, w: World, a: nat, k: nat, bad: Data) {
    && w.client == Packet(a, k) && w.alive && w.handled == |w.sent| && w.replies == [] && HasKey(cfg, w.view)
    && 1 <= k <= cfg.Total()
    && (k > 1 ==> w.view.dir && cfg.Stored() in w.view.files && w.view.files[cfg.Stored()] == bad)
  }

  /** The first packet of an attempt is replaced as a whole, and the others are emptied. */
  function Replacement(k: nat, bad: Data): Data {
    if k == 1 then bad else []
  }

  lemma SpoiledPacket(cfg: Config, v: View, k: nat, bad: Data)
    requires Misleads(cfg, bad) && HasKey(cfg, v) && 1 <= k <= cfg.Total()
    requires k > 1 ==> v.dir && cfg.Stored() in v.files && v.files[cfg.Stored()] == bad
    ensures var n := Handle(cfg.crypto, cfg.id, v, PacketRequest(cfg, k, Replacement(k, bad)));
            && n.task == Idle && HasKey(cfg, n.view)
            && if k < cfg.Total() then
                 n.reply == None && n.view.dir && cfg.Stored() in n.view.files && n.view.files[cfg.Stored()] == bad
               else n.reply.Some? && Wrong(cfg, n.reply.value)
  {
    hide Finish, PacketRequest, Decode, Seen, IsAscii, PathOf, Cksum, Start;
    var data := Replacement(k, bad);
    var chunk := Chunk(cfg.Stored(), k, cfg.Total(), data);
    PacketStarts(cfg, k, data);
    StartsHandling(cfg.crypto, cfg.id, v, PacketRequest(cfg, k, data));
    PacketIsSaved(cfg.crypto, cfg.id, v, chunk);
    var all := (if k == 1 then [] else v.files[chunk.name]) + data;
    assert all == bad;
    if k == cfg.Total() {
      var w := v.(dir := true, files := v.files[chunk.name := all]);
      ShortName(cfg);
      FileIsProcessed(cfg.crypto, cfg.id, w, chunk, Some(cfg.key));
    }
  }

  lemma StartsHandling(c: Crypto, id: seq<bv8>, v: View, request: ClientRequest)
    ensures var (task, reply) := Start(request);
            Handle(c, id, v, request) == if task.Idle? || task.Dead? then Next(v, task, reply) else Finish(c, id, v, task)
  {
    hide Start, Finish;
  }

  lemma SameHeader(cfg: Config, k: nat, data: Data, d: Data)
    ensures Arrives(true, PacketRequest(cfg, k, data), PacketRequest(cfg, k, d))
  {
    hide LittleEndian.Pack, NameField;
    var p, q := PacketRequest(cfg, k, data).payload, PacketRequest(cfg, k, d).payload;
    assert p[..REQ_FILE_HEADER_SIZE] == q[..REQ_FILE_HEADER_SIZE];
  }

  /** Packet k goes out, is replaced on its way, and handled. */
  lemma SpoilPacket(cfg: Config, v: View, w: World, a: nat, k: nat, bad: Data) returns (w': World)
    requires Misleads(cfg, bad) && Reached(cfg, v, w) && Spoiled(cfg, w, a, k, bad)
    ensures Reached(cfg, v, w')
    ensures if k < cfg.Total() then Spoiled(cfg, w', a, k + 1, bad)
            else
              && w'.client == AwaitFile(a) && w'.alive && w'.handled == |w'.sent| && HasKey(cfg, w'.view)
              && |w'.replies| == 1 && Wrong(cfg, w'.replies[0].1)
  {
    hide Handle, PacketRequest, PacketData, Cksum, Acceptable, HasKey, Arrives;
    var sent := ClientStep(cfg, w).value;
    Onward(cfg, v, w, sent);
    var got := PacketRequest(cfg, k, Replacement(k, bad));
    SameHeader(cfg, k, PacketData(cfg.encrypted, k), Replacement(k, bad));
    assert Serves(cfg, true, sent, got);
    w' := ServerStep(cfg, sent, got);
    Onward(cfg, v, sent, w');
    SpoiledPacket(cfg, w.view, k, bad);
  }

  /** The rest of an attempt. */
  lemma {:induction false} SpoilPackets(cfg: Config, v: View, w: World, a: nat, k: nat, bad: Data) returns (w': World)
    requires Misleads(cfg, bad) && Reached(cfg, v, w) && Spoiled(cfg, w, a, k, bad)
    ensures Reached(cfg, v, w') && w'.client == AwaitFile(a) && w'.alive && w'.handled == |w'.sent|
    ensures HasKey(cfg, w'.view) && |w'.replies| == 1 && Wrong(cfg, w'.replies[0].1)
    decreases cfg.Total() - k
  {
    hide Misleads, Reached, HasKey, Wrong;
    w' := SpoilPacket(cfg, v, w, a, k, bad);
    if k < cfg.Total() {
      w' := SpoilPackets(cfg, v, w', a, k + 1, bad);
    }
  }

  /** The wrong checksum is read; 901 announces another attempt, or 902 the end. */
  lemma AnotherAttempt(cfg: Config, v: View, w: World, a: nat, bad: Data) returns (w': World)
    requires Misleads(cfg, bad) && Reached(cfg, v, w) && Spoiled(cfg, w, a, 1, bad)
    ensures Reached(cfg, v, w')
    ensures if a < MAX_RETRIES then Spoiled(cfg, w', a + 1, 1, bad) else w'.client == Aborted
  {
    hide Handle, PacketRequest, PacketData, Reached, Verdict, HasKey;
    var answered := SpoilPackets(cfg, v, w, a, 1, bad);
    var read := ClientStep(cfg, answered).value;
    Onward(cfg, v, answered, read);
    var sent := ClientStep(cfg, read).value;
    Onward(cfg, v, read, sent);
    w' := sent;
    if a < MAX_RETRIES {
      NothingToResend(cfg, sent.view);
      assert Serves(cfg, true, sent, CRCBadResend);
      w' := ServerStep(cfg, sent, CRCBadResend);
      Onward(cfg, v, sent, w');
    }
  }

  /** Where the server can be misled, there are runs with a fourth attempt, and runs that end with 902. */
  lemma FourAttempts(cfg: Config, v: View, bad: Data) returns (fourth: World, last: World)
    requires Misleads(cfg, bad) && HasKey(cfg, v)
    ensures Reached(cfg, v, fourth) && fourth.client == Packet(4, 1)
    ensures Reached(cfg, v, last) && last.client == Aborted
  {
    hide Misleads, HasKey, Moves;
    assert IsRun(cfg, true, v, [Begin(v)]);
    assert [Begin(v)][|[Begin(v)]| - 1] == Begin(v);
    fourth := Begin(v);
    hide Reached, IsRun;
    fourth := AnotherAttempt(cfg, v, fourth, 1, bad);
    fourth := AnotherAttempt(cfg, v, fourth, 2, bad);
    fourth := AnotherAttempt(cfg, v, fourth, 3, bad);
    last := AnotherAttempt(cfg, v, fourth, 4, bad);
  }

  /** A file of one octet, and a cipher that puts one octet before it. */
  function OneOctet(): Config {
    var crypto := Crypto((k: Data, d: Data) => if d == [] then None else Some(d[1..]), (p: Data, k: Data) => None);
    Config(crypto, Octets.ZeroOctets(16), [0x61], [1], [1], [0, 1])
  }

  lemma OtherOctet(cfg: Config, bad: Data)
    requires cfg == OneOctet() && bad == [0, 2]
    ensures Misleads(cfg, bad)
  {
    hide Cksum, PathOf, Acceptable;
    assert cfg.encrypted[1..] == cfg.content && bad[1..] == [2];
    assert cfg.crypto.decrypt(cfg.key, cfg.encrypted) == Some(cfg.content);
    assert cfg.crypto.decrypt(cfg.key, bad) == Some([2]);
    DetectsFourOctets([2], [1], 0);
    AcceptableNames(cfg);
    assert Seen([0x61]) == [0x61] && Value(0x61) == 0x61;
    assert cfg.Stored()[0] == 'a';
    assert |cfg.Stored()| == 1 && |"."| == 1 && "."[0] == '.';
  }

  /** There is such a run. */
  lemma FourthAttemptHappens() returns (cfg: Config, v: View, run: seq<World>)
    ensures cfg.Valid() && IsRun(cfg, true, v, run) && run[|run| - 1].client == Packet(4, 1)
  {
    cfg := OneOctet();
    v := View(false, imap[], Some(ClientRow("", None, 0, Some(cfg.key))), []);
    OtherOctet(cfg, [0, 2]);
    hide IsRun, OneOctet, Cksum, Acceptable;
    var fourth, _ := FourAttempts(cfg, v, [0, 2]);
    run := RunTo(cfg, v, fourth);
  }

  lemma RunTo(cfg: Config, v: View, w: World) returns (run: seq<World>)
    requires Reached(cfg, v, w)
    ensures IsRun(cfg, true, v, run) && run[|run| - 1] == w
  {
    hide Moves;
    run :| IsRun(cfg, true, v, run) && run[|run| - 1] == w;
  }
}
