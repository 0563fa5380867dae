/** A connection from the octets on the wire to the handlers: what is read is decoded, routed and answered. */
module Connection {
  import opened Framing
  import opened Handlers
  import opened Isolation
  import opened Options
  import opened Server
  import opened Service
  import opened Transfer

  // ---------- what the server makes of a stream ----------

  /** How a connection ends: the stream stops, a payload is too long, or a handler raises. */
  datatype End = Closed | TooLong | Raised

  datatype Routed = Routed(requests: seq<Request>, end: End)

  /** Whether the handler of a request lets an exception end the connection. */
  predicate Raises(r: Request) {
    match DecodeRequest(r.code, r.payload, [], 0)
    case Known(request) => Start(request).0.Dead?
    case _ => false
  }

  /** The requests a stream holds, one behind the other, up to the first that ends the connection. */
  function ParseStream(s: seq<bv8>): Routed
    decreases |s|
  {
    if |s| < REQUEST_HEADER_SIZE then Routed([], Closed)
    else
      var h := UnpackHeader(s[..REQUEST_HEADER_SIZE]);
      var rest := s[REQUEST_HEADER_SIZE..];
      if |rest| < h.payloadSize then Routed([], Closed)
      else if h.payloadSize > MAX_PAYLOAD_SIZE then Routed([], TooLong)
      else
        var r := Request(h.clientId, h.version, h.code, rest[..h.payloadSize]);
        if Raises(r) then Routed([r], Raised) else Prefixed([r], ParseStream(rest[h.payloadSize..]))
  }

  function Prefixed(done: seq<Request>, r: Routed): Routed {
    Routed(done + r.requests, r.end)
  }

  lemma PrefixedMore(done: seq<Request>, r: Request, more: Routed)
    ensures Prefixed(done + [r], more) == Prefixed(done, Prefixed([r], more))
  {
    assert done + [r] + more.requests == done + ([r] + more.requests);
  }

  /** Requests up to the first that raises. */
  function UpToRaise(rs: seq<Request>): Routed {
    if rs == [] then Routed([], Closed)
    else if Raises(rs[0]) then Routed([rs[0]], Raised)
    else Prefixed([rs[0]], UpToRaise(rs[1..]))
  }

  /** The requests the client wrote are those the server routes, all of them or up to the first that raises. */
  lemma {:induction false} RoutesWhatWasWritten(rs: seq<Request>)
    requires forall i :: 0 <= i < |rs| ==> rs[i].Valid() && |rs[i].payload| <= MAX_PAYLOAD_SIZE
    ensures ParseStream(WireAll(rs)) == UpToRaise(rs)
  {
    hide PackHeader, UnpackHeader, Raises;
    if rs != [] {
      var r, rest := rs[0], WireAll(rs[1..]);
      var h := PackHeader(r.clientId, r.version, r.code, |r.payload|);
      UnpackHeaderOfPack(r.clientId, r.version, r.code, |r.payload|);
      RoutesWhatWasWritten(rs[1..]);
      assert WireAll(rs) == h + r.payload + rest;
      ThreeParts(h, r.payload, rest);
    }
  }

  lemma ThreeParts(a: seq<bv8>, b: seq<bv8>, c: seq<bv8>)
    ensures var s := a + b + c;
            && |s| == |a| + |b| + |c| && s[..|a|] == a && |s[|a|..]| == |b| + |c|
            && s[|a|..][..|b|] == b && s[|a|..][|b|..] == c
  {
  }

  lemma {:induction false} NothingRaises(rs: seq<Request>)
    requires forall i :: 0 <= i < |rs| ==> !Raises(rs[i])
    ensures UpToRaise(rs) == Routed(rs, Closed)
  {
    hide Raises;
    if rs != [] {
      NothingRaises(rs[1..]);
      assert rs == [rs[0]] + rs[1..];
    }
  }

  /**
   What ends a connection: the stream stops inside a request, or a payload of more than 50 MiB has arrived; neither
   is routed.
   */
  lemma EndsAt(id: Id, version: nat, code: nat, size: nat, rest: seq<bv8>)
    requires version < 0x100 && code < 0x1_0000 && size < 0x1_0000_0000
    ensures |rest| < size ==> ParseStream(PackHeader(id, version, code, size) + rest) == Routed([], Closed)
    ensures 52428800 < size <= |rest| ==> ParseStream(PackHeader(id, version, code, size) + rest) == Routed([], TooLong)
    ensures forall s :: |s| < 23 ==> ParseStream(s) == Routed([], Closed)
  {
    hide PackHeader, UnpackHeader;
    var h := PackHeader(id, version, code, size);
    UnpackHeaderOfPack(id, version, code, size);
    assert (h + rest)[..|h|] == h && (h + rest)[|h|..] == rest;
  }

  // ---------- the receive loop ----------

  /** Disk and database after some requests, and the replies to them. */
  datatype Session = Session(state: Global, replies: seq<Reply>)

  /** Requests routed one after the other, with what is drawn for each. */
  function RouteAll(c: Crypto, g: Global, rs: seq<Request>, envs: nat -> Env): Session {
    if rs == [] then Session(g, [])
    else
      var before, r := RouteAll(c, g, rs[..|rs| - 1], envs), rs[|rs| - 1];
      var n := Route(c, before.state, r.clientId, r.code, r.payload, envs(|rs| - 1));
      Session(n.state, Answer(before.replies, n.reply))
  }

  lemma RouteOneMore(c: Crypto, g: Global, rs: seq<Request>, r: Request, envs: nat -> Env)
    ensures var before := RouteAll(c, g, rs, envs);
            var n := Route(c, before.state, r.clientId, r.code, r.payload, envs(|rs|));
            RouteAll(c, g, rs + [r], envs) == Session(n.state, Answer(before.replies, n.reply))
  {
    hide Route;
    assert (rs + [r])[..|rs|] == rs;
  }

  /** Only the start of a handler raises, whatever disk and database hold. */
  lemma RaisesIff(c: Crypto, g: Global, r: Request, env: Env)
    ensures Route(c, g, r.clientId, r.code, r.payload, env).task.Dead? <==> Raises(r)
  {
    hide Start, Register, GlobalFinish;
    match DecodeRequest(r.code, r.payload, env.freshKey, env.now)
    case Known(request) =>
      KeysDoNotRaise(r.code, r.payload, env.freshKey, env.now);
      var task := Start(request).0;
      if !task.Dead? {
        NeverDies(c, g, r.clientId, task);
      }
    case _ =>
  }

  lemma KeysDoNotRaise(code: nat, payload: Data, freshKey: Data, now: nat)
    ensures var d, e := DecodeRequest(code, payload, freshKey, now), DecodeRequest(code, payload, [], 0);
            d.Known? ==> (Start(d.request).0.Dead? <==> Start(e.request).0.Dead?)
  {
    hide GetFilePayload, UpToZero, Decode, BaseName, IsAscii;
  }

  lemma {:induction false} NeverDies(c: Crypto, g: Global, id: Id, task: Task)
    requires !task.Dead?
    ensures !GlobalFinish(c, g, id, task).task.Dead?
    decreases Rank(task)
  {
    hide GlobalStep;
    GlobalStepComesCloser(c, g, id, task);
    StepLives(c, g, id, task);
    var n := GlobalStep(c, g, id, task);
    if !task.Idle? && !n.task.Idle? {
      NeverDies(c, n.state, id, n.task);
    }
  }

  lemma StepLives(c: Crypto, g: Global, id: Id, task: Task)
    requires !task.Dead?
    ensures !GlobalStep(c, g, id, task).task.Dead?
  {
    hide PathOf, Confirm, Crc.Cksum;
  }

  /** What comes of waiting for a request. */
  datatype Incoming = Stops | Oversized | Arrives(request: Request)

  class ClientHandler {
    const conn: Socket
    const handler: RequestHandler

    constructor (c: Socket, h: RequestHandler)
      ensures conn == c && handler == h
    {
      conn, handler := c, h;
    }

    /** The next request, header first; its payload is read even if it is too long. */
    method ReceiveRequest() returns (next: Incoming)
      modifies conn
      ensures var whole := ParseStream(old(conn.stream));
              match next
              case Stops => whole == Routed([], Closed)
              case Oversized => whole == Routed([], TooLong)
              case Arrives(r) =>
                && |conn.stream| < |old(conn.stream)|
                && whole == if Raises(r) then Routed([r], Raised) else Prefixed([r], ParseStream(conn.stream))
    {
      hide UnpackHeader, Raises;
      var h := ReceiveBytes(conn, REQUEST_HEADER_SIZE);
      if h.ConnectionError? {
        return Stops;
      }
      var header := UnpackHeader(h.value);
      var p := Result<seq<bv8>>.Ok([]);
      if header.payloadSize > 0 {
        p := ReceiveBytes(conn, header.payloadSize);
      }
      if p.ConnectionError? {
        return Stops;
      }
      if header.payloadSize > MAX_PAYLOAD_SIZE {
        return Oversized;
      }
      next := Arrives(Request(header.clientId, header.version, header.code, p.value));
    }

    /**
     The receive loop: it routes exactly the requests that the stream holds, in order, however the network cuts it,
     and after a payload that is too long it answers with an error.
     */
    method Run(envs: nat -> Env) returns (end: End)
      requires handler.sent == []
      modifies conn, handler, handler.db, handler.fs
      ensures var routed := ParseStream(old(conn.stream));
              var session := RouteAll(handler.crypto, old(handler.State()), routed.requests, envs);
              && end == routed.end && handler.State() == session.state
              && handler.sent == session.replies + (if end.TooLong? then [GeneralError] else [])
    {
      ghost var routed, g := [], handler.State();
      assert RouteAll(handler.crypto, g, [], envs) == Session(g, []);
      hide Route, Raises, RouteAll, ParseStream;
      ghost var whole := ParseStream(conn.stream);
      var count := 0;
      while true
        invariant count == |routed|
        invariant Prefixed(routed, ParseStream(conn.stream)) == whole
        invariant Session(handler.State(), handler.sent) == RouteAll(handler.crypto, g, routed, envs)
        decreases |conn.stream|
      {
        var next := ReceiveRequest();
        match next {
          case Stops =>
            assert routed + [] == routed;
            return Closed;
          case Oversized =>
            assert routed + [] == routed;
            handler.SendResponse(GeneralError);
            return TooLong;
          case Arrives(r) =>
            RouteOneMore(handler.crypto, g, routed, r, envs);
            RaisesIff(handler.crypto, handler.State(), r, envs(count));
            var raised := handler.RouteRequest(r.code, r.clientId, r.payload, envs(count));
            PrefixedMore(routed, r, ParseStream(conn.stream));
            routed, count := routed + [r], count + 1;
            if raised {
              return Raised;
            }
        }
      }
    }
  }

  // ---------- a transfer on the wire ----------

  const VERSION: nat := 3

  /** A request of sendFile as the client writes it; 901 carries the name like the verdicts. */
  function Written(cfg: Config, r: ClientRequest): Request
    requires |cfg.id| == CLIENT_ID_SIZE
  {
    match r
    case SendPublicKey(payload, _) => Request(cfg.id, VERSION, SEND_PUBLIC_KEY, payload)
    case Reconnect(payload, _, _) => Request(cfg.id, VERSION, RECONNECT, payload)
    case SendFile(payload) => Request(cfg.id, VERSION, SEND_FILE, payload)
    case CRCOK(payload) => Request(cfg.id, VERSION, CRC_OK, payload)
    case CRCBadResend => Request(cfg.id, VERSION, CRC_BAD_RESEND, NameField(cfg.name))
    case CRCBadDone(payload) => Request(cfg.id, VERSION, CRC_BAD_DONE, payload)
  }

  function AllWritten(cfg: Config, rs: seq<ClientRequest>): (ws: seq<Request>)
    requires |cfg.id| == CLIENT_ID_SIZE
    ensures |ws| == |rs|
  {
    seq(|rs|, i requires 0 <= i < |rs| => Written(cfg, rs[i]))
  }

  /** What sendFile may send. */
  ghost predicate Sends(cfg: Config, r: ClientRequest) {
    || (exists k :: 1 <= k <= cfg.Total() && r == PacketRequest(cfg, k, PacketData(cfg.encrypted, k)))
    || r == CRCBadResend || r == Verdict(cfg, true) || r == Verdict(cfg, false)
  }

  lemma AttemptSends(cfg: Config)
    ensures forall i :: 0 <= i < |Attempt(cfg)| ==> Sends(cfg, Attempt(cfg)[i])
  {
    hide PacketRequest, PacketData, Verdict;
  }

  lemma {:induction false} TriesSend(cfg: Config, n: nat)
    ensures forall i :: 0 <= i < |Tries(cfg, n)| ==> Sends(cfg, Tries(cfg, n)[i])
  {
    hide Attempt;
    if n > 0 {
      TriesSend(cfg, n - 1);
      AttemptSends(cfg);
    }
  }

  lemma ScriptSends(cfg: Config, client: Client)
    requires InAttempts(cfg, client)
    ensures forall i :: 0 <= i < |Script(cfg, client)| ==> Sends(cfg, Script(cfg, client)[i])
  {
    hide Attempt, Tries, Verdict;
    AttemptSends(cfg);
    TriesSend(cfg, MAX_RETRIES - 1);
    match client
    case Aborting =>
    case Aborted =>
    case _ => TriesSend(cfg, client.attempt - 1);
  }

  /** Each request fits the server's limit, is decoded as what it is, and raises only if the name is not ASCII. */
  lemma SentIsDecoded(cfg: Config, r: ClientRequest, freshKey: Data, now: nat)
    requires cfg.Valid() && Sends(cfg, r)
    ensures var w := Written(cfg, r);
            && w.Valid() && w.clientId == cfg.id && w.version == 3 && |w.payload| <= MAX_PAYLOAD_SIZE
            && DecodeRequest(w.code, w.payload, freshKey, now) == Known(r)
            && (Raises(w) <==> !r.CRCBadResend? && !IsAscii(Seen(cfg.name)))
  {
    hide IsAscii, Seen, NameField, BaseName, UpToZero, Decode;
    NameFieldRoundTrip(cfg.name);
    assert NameField(cfg.name)[..NAME_LEN] == NameField(cfg.name);
    if k :| 1 <= k <= cfg.Total() && r == PacketRequest(cfg, k, PacketData(cfg.encrypted, k)) {
      PacketFits(cfg, k);
      PacketStarts(cfg, k, PacketData(cfg.encrypted, k));
      hide Start, PacketRequest, PacketData;
    }
  }

  lemma PacketFits(cfg: Config, k: nat)
    requires k > 0
    ensures PacketRequest(cfg, k, PacketData(cfg.encrypted, k)).SendFile?
    ensures |PacketRequest(cfg, k, PacketData(cfg.encrypted, k)).payload| <= REQ_FILE_HEADER_SIZE + PACKET_SIZE
  {
    hide LittleEndian.Pack, NameField;
  }

  /**
   Whatever sendFile has sent is routed by the server as exactly these requests, each to its own handler; if the
   server cannot read the name, the first packet ends the connection.
   */
  lemma ScriptIsRouted(cfg: Config, client: Client)
    requires cfg.Valid() && InAttempts(cfg, client)
    ensures var rs := AllWritten(cfg, Script(cfg, client));
            && (forall i :: 0 <= i < |rs| ==> rs[i].Valid())
            && ParseStream(WireAll(rs))
            == if IsAscii(Seen(cfg.name)) || rs == [] then Routed(rs, Closed) else Routed([rs[0]], Raised)
    ensures forall i, freshKey, now :: 0 <= i < |Script(cfg, client)| ==>
      var w := AllWritten(cfg, Script(cfg, client))[i];
      DecodeRequest(w.code, w.payload, freshKey, now) == Known(Script(cfg, client)[i])
  {
    hide Written, Sends, IsAscii, Seen, Script, DecodeRequest, ParseStream, WireAll, Raises;
    var script := Script(cfg, client);
    var rs := AllWritten(cfg, script);
    ScriptSends(cfg, client);
    forall i, freshKey, now | 0 <= i < |rs|
      ensures rs[i].Valid() && |rs[i].payload| <= MAX_PAYLOAD_SIZE
      ensures DecodeRequest(rs[i].code, rs[i].payload, freshKey, now) == Known(script[i])
      ensures IsAscii(Seen(cfg.name)) ==> !Raises(rs[i])
    {
      SentIsDecoded(cfg, script[i], freshKey, now);
    }
    forall i | 0 <= i < |rs|
      ensures rs[i].Valid() && |rs[i].payload| <= MAX_PAYLOAD_SIZE && (IsAscii(Seen(cfg.name)) ==> !Raises(rs[i]))
    {
      SentIsDecoded(cfg, script[i], [], 0);
    }
    RoutesWhatWasWritten(rs);
    if IsAscii(Seen(cfg.name)) {
      NothingRaises(rs);
    } else if rs != [] {
      FirstIsPacket(cfg, client);
      SentIsDecoded(cfg, script[0], [], 0);
    }
  }

  lemma FirstIsPacket(cfg: Config, client: Client)
    requires InAttempts(cfg, client)
    ensures Script(cfg, client) != [] ==> Script(cfg, client)[0].SendFile?
  {
    hide Attempt, Tries, Verdict;
    FirstOfAttempt(cfg);
    FirstOfTries(cfg, MAX_RETRIES - 1);
    match client
    case Aborting =>
    case Aborted =>
    case _ => FirstOfTries(cfg, client.attempt - 1);
  }

  lemma FirstOfAttempt(cfg: Config)
    ensures Attempt(cfg)[0].SendFile?
  {
    hide PacketData, PackFile;
    assert Attempt(cfg)[0] == PacketRequest(cfg, 1, PacketData(cfg.encrypted, 1));
  }

  lemma {:induction false} FirstOfTries(cfg: Config, n: nat)
    ensures if n > 0 then Tries(cfg, n) != [] && Tries(cfg, n)[0].SendFile? else Tries(cfg, n) == []
  {
    hide Attempt;
    FirstOfAttempt(cfg);
    if n > 0 {
      FirstOfTries(cfg, n - 1);
    }
  }

  /** The codes of some requests. */
  function CodesOf(rs: seq<Request>): (s: seq<nat>)
    ensures |s| == |rs|
  {
    seq(|rs|, i requires 0 <= i < |rs| => rs[i].code)
  }

  function Times(s: seq<nat>, n: nat): seq<nat> {
    if n == 0 then [] else Times(s, n - 1) + s
  }

  function Packets(n: nat): (s: seq<nat>)
    ensures |s| == n
  {
    seq(n, _ => 828)
  }

  /** In numbers: the packets, 901 after each of them but the last ones, and 900, or 902 after the fourth time. */
  lemma CodesSent(cfg: Config, a: nat)
    requires cfg.Valid() && 1 <= a <= 4
    ensures InAttempts(cfg, Done(a)) && InAttempts(cfg, Aborted)
    ensures CodesOf(AllWritten(cfg, Script(cfg, Done(a))))
         == Times(Packets(cfg.Total()) + [901], a - 1) + Packets(cfg.Total()) + [900]
    ensures CodesOf(AllWritten(cfg, Script(cfg, Aborted)))
         == Times(Packets(cfg.Total()) + [901], 3) + Packets(cfg.Total()) + [902]
  {
    hide Attempt, Tries, Written;
    AttemptCodes(cfg);
    TriesCodes(cfg, a - 1);
    TriesCodes(cfg, 3);
    VerdictCodes(cfg);
    CodesJoin(cfg, Tries(cfg, a - 1), Attempt(cfg), Verdict(cfg, true));
    CodesJoin(cfg, Tries(cfg, 3), Attempt(cfg), Verdict(cfg, false));
  }

  lemma CodesJoin(cfg: Config, a: seq<ClientRequest>, b: seq<ClientRequest>, last: ClientRequest)
    requires |cfg.id| == CLIENT_ID_SIZE
    ensures CodesOf(AllWritten(cfg, a + b + [last]))
         == CodesOf(AllWritten(cfg, a)) + CodesOf(AllWritten(cfg, b)) + [Written(cfg, last).code]
  {
    hide Written;
  }

  lemma AttemptCodes(cfg: Config)
    requires |cfg.id| == CLIENT_ID_SIZE
    ensures CodesOf(AllWritten(cfg, Attempt(cfg))) == Packets(cfg.Total())
  {
    hide Attempt, PacketRequest, PacketData;
    forall i | 0 <= i < cfg.Total()
      ensures AllWritten(cfg, Attempt(cfg))[i].code == 828
    {
      PacketAt(cfg, i);
      IsSendFile(cfg, i + 1, PacketData(cfg.encrypted, i + 1));
    }
  }

  lemma IsSendFile(cfg: Config, k: nat, data: Data)
    ensures PacketRequest(cfg, k, data).SendFile?
  {
  }

  lemma {:induction false} TriesCodes(cfg: Config, n: nat)
    requires |cfg.id| == CLIENT_ID_SIZE
    ensures CodesOf(AllWritten(cfg, Tries(cfg, n))) == Times(Packets(cfg.Total()) + [901], n)
  {
    hide Attempt;
    if n > 0 {
      AttemptCodes(cfg);
      TriesCodes(cfg, n - 1);
      CodesJoin(cfg, Tries(cfg, n - 1), Attempt(cfg), CRCBadResend);
      var t := Times(Packets(cfg.Total()) + [901], n - 1);
      assert t + (Packets(cfg.Total()) + [901]) == t + Packets(cfg.Total()) + [901];
    }
  }

  /** Both verdicts hold the name of the file. */
  lemma VerdictCodes(cfg: Config)
    requires cfg.Valid()
    ensures Written(cfg, Verdict(cfg, true)).code == 900 && Written(cfg, Verdict(cfg, false)).code == 902
    ensures forall ok :: var payload := Written(cfg, Verdict(cfg, ok)).payload;
                         |payload| == 255 && UpToZero(payload) == Seen(cfg.name)
  {
    hide NameField, UpToZero, Seen;
    NameFieldRoundTrip(cfg.name);
  }

  /** Requests of one client, routed, are served on its view; the views of others stay. */
  lemma {:induction false} RoutedIsServed(cfg: Config, g: Global, rs: seq<ClientRequest>, envs: nat -> Env)
    requires |cfg.id| == CLIENT_ID_SIZE
    requires forall i, freshKey, now :: 0 <= i < |rs| ==>
      var w := Written(cfg, rs[i]); DecodeRequest(w.code, w.payload, freshKey, now) == Known(rs[i])
    requires !Serve(cfg.crypto, cfg.id, ViewOf(g, cfg.id), rs).dead
    ensures var session := RouteAll(cfg.crypto, g, AllWritten(cfg, rs), envs);
            && Serve(cfg.crypto, cfg.id, ViewOf(g, cfg.id), rs)
            == Served(ViewOf(session.state, cfg.id), session.replies, false)
            && forall other: Id :: other != cfg.id ==> ViewOf(session.state, other) == ViewOf(g, other)
  {
    hide ViewOf, DecodeRequest, Handle, GlobalHandle;
    if rs != [] {
      var init, last, ws := rs[..|rs| - 1], rs[|rs| - 1], AllWritten(cfg, rs);
      RoutedIsServed(cfg, g, init, envs);
      assert ws[..|ws| - 1] == AllWritten(cfg, init);
      var before := RouteAll(cfg.crypto, g, AllWritten(cfg, init), envs);
      HandleIsLocal(cfg.crypto, before.state, cfg.id, last);
      var env := envs(|init|);
      assert DecodeRequest(ws[|init|].code, ws[|init|].payload, env.freshKey, env.now) == Known(last);
    }
  }

  /**
   From wire to disk: when the octets of an undisturbed transfer have been read, the client's file is stored and
   verified, its replies are the two it waits for, and nothing of other clients has changed.
   */
  lemma TransferOnTheWire(cfg: Config, g: Global, envs: nat -> Env)
    requires cfg.Valid() && Acceptable(cfg) && HasKey(cfg, ViewOf(g, cfg.id))
    ensures var rs := AllWritten(cfg, Script(cfg, Done(1)));
            && (forall i :: 0 <= i < |rs| ==> rs[i].Valid())
            && (var routed := ParseStream(WireAll(rs));
                var session := RouteAll(cfg.crypto, g, routed.requests, envs);
                && routed.end == Closed
                && ViewOf(session.state, cfg.id) == FileVerified(cfg, ViewOf(g, cfg.id))
                && session.replies == [FileOK(|cfg.encrypted|, cfg.Stored(), cfg.Checksum()), MessageACK]
                && forall other: Id :: other != cfg.id ==> ViewOf(session.state, other) == ViewOf(g, other))
  {
    hide ViewOf, Written, FileVerified, Attempt, Verdict, RouteAll, Serve, DecodeRequest, ParseStream, WireAll;
    hide IsAscii, HasKey;
    ScriptIsRouted(cfg, Done(1));
    assert Script(cfg, Done(1)) == Attempt(cfg) + [Verdict(cfg, true)];
    ServeTransfer(cfg, ViewOf(g, cfg.id));
    forall i, freshKey, now | 0 <= i < |Script(cfg, Done(1))|
      ensures var w := Written(cfg, Script(cfg, Done(1))[i]);
              DecodeRequest(w.code, w.payload, freshKey, now) == Known(Script(cfg, Done(1))[i])
    {
      assert AllWritten(cfg, Script(cfg, Done(1)))[i] == Written(cfg, Script(cfg, Done(1))[i]);
    }
    RoutedIsServed(cfg, g, Script(cfg, Done(1)), envs);
  }
}
