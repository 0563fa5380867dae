/** What each request comes to, in terms of rows, files and replies alone. */
module Outcomes {
  import opened Connection
  import opened Crc
  import opened Framing
  import opened Handlers
  import opened Isolation
  import opened Options
  import opened Server

  // ---------- codes ----------

  /** Which number asks for what; any other asks for nothing. */
  lemma Codes(code: nat, payload: Data, key: Data, now: nat)
    ensures DecodeRequest(code, payload, key, now) ==
      match code
      case 825 => Registration(payload)
      case 826 => Known(SendPublicKey(payload, key))
      case 827 => Known(Reconnect(payload, key, now))
      case 828 => Known(ClientRequest.SendFile(payload))
      case 900 => Known(CRCOK(payload))
      case 901 => Known(CRCBadResend)
      case 902 => Known(CRCBadDone(payload))
      case _ => Invalid
  {
  }

  /** The requests that end a connection by an exception: a name that is not ASCII in a packet or a verdict. */
  lemma RaisesExactly(r: Request)
    ensures Raises(r) <==>
      || (r.code == 828 && |r.payload| >= 267 && !IsAscii(UpToZero(r.payload[12..267])))
      || ((r.code == 900 || r.code == 902) && |r.payload| >= 255 && !IsAscii(UpToZero(r.payload[..255])))
  {
    hide UpToZero, IsAscii, Decode, BaseName;
  }

  /** Any other request, routed on the shared state, is handled on the view of its client and leaves the others. */
  lemma RoutedOnItsView(c: Crypto, g: Global, id: Id, code: nat, payload: Data, env: Env, request: ClientRequest)
    requires match request
             case SendPublicKey(p, key) => code == 826 && p == payload && key == env.freshKey
             case Reconnect(p, key, now) => code == 827 && p == payload && key == env.freshKey && now == env.now
             case SendFile(p) => code == 828 && p == payload
             case CRCOK(p) => code == 900 && p == payload
             case CRCBadResend => code == 901
             case CRCBadDone(p) => code == 902 && p == payload
    ensures var n := Route(c, g, id, code, payload, env);
            && Handle(c, id, ViewOf(g, id), request) == Next(ViewOf(n.state, id), n.task, n.reply)
            && forall other: Id :: other != id ==> ViewOf(n.state, other) == ViewOf(g, other)
  {
    hide ViewOf, Handle, GlobalHandle;
    HandleIsLocal(c, g, id, request);
  }

  lemma UnknownCodesDoNothing(c: Crypto, g: Global, id: Id, code: nat, payload: Data, env: Env)
    requires code !in {825, 826, 827, 828, 900, 901, 902}
    ensures var n := Route(c, g, id, code, payload, env); n.state == g && n.reply == None && !n.task.Dead?
  {
  }

  // ---------- registration ----------

  /** 825: a name that is new, ASCII, not empty and short enough is registered; every other is refused. */
  lemma Registers(c: Crypto, g: Global, id: Id, payload: Data, env: Env)
    ensures var name, n := UpToZero(payload), Route(c, g, id, 825, payload, env);
            if IsAscii(name) && 0 < |name| <= 255 && env.newId !in g.clients
               && (forall id :: id in g.clients ==> g.clients[id].name != Decode(name)) then
              && n.reply == Some(RegisterSuccess(env.newId))
              && n.state == g.(clients := g.clients[env.newId := ClientRow(Decode(name), None, env.now, None)])
            else n.reply == Some(RegisterFail) && n.state == g
  {
    hide UpToZero, IsAscii, Decode;
  }

  // ---------- keys ----------

  /** 826: a registered client gets a fresh key, which is stored with the public key it sent. */
  lemma PublicKeyAccepted(c: Crypto, id: Id, v: View, payload: Data, key: Data)
    requires |payload| == 415 && IsAscii(UpToZero(payload[..255])) && v.row.Some?
    ensures Handle(c, id, v, SendPublicKey(payload, key)) ==
      Next(v.(row := Some(ClientRow(v.row.value.name, Some(payload[255..]), v.row.value.lastSeen, Some(key)))), Idle,
           Some(match c.encryptKey(payload[255..], key)
                case Some(e) => PubKeyReceived(e)
                case None => GeneralError))
  {
    hide UpToZero, IsAscii;
    Transfer.FinishNext(c, id, v, UpdateKey(payload[255..], key));
  }

  /** In all other cases nothing changes. */
  lemma PublicKeyRefused(c: Crypto, id: Id, v: View, payload: Data, key: Data)
    requires |payload| != 415 || !IsAscii(UpToZero(payload[..255])) || v.row.None?
    ensures Handle(c, id, v, SendPublicKey(payload, key)) == Next(v, Idle, Some(GeneralError))
  {
    hide UpToZero, IsAscii;
    if |payload| == 415 && IsAscii(UpToZero(payload[..255])) {
      Transfer.FinishNext(c, id, v, UpdateKey(payload[255..], key));
    }
  }

  /** 827: a client with a public key gets a fresh key, which is stored with the time. */
  lemma ReconnectAccepted(c: Crypto, id: Id, v: View, payload: Data, key: Data, now: nat, pk: Data)
    requires |payload| == 255 && IsAscii(UpToZero(payload))
    requires v.row.Some? && v.row.value.publicKey == Some(pk) && pk != []
    ensures Handle(c, id, v, Reconnect(payload, key, now)) ==
      Next(v.(row := Some(ClientRow(v.row.value.name, Some(pk), now, Some(key)))), Idle,
           Some(match c.encryptKey(pk, key)
                case Some(e) => ReconnectAccept(e)
                case None => GeneralError))
  {
    hide UpToZero, IsAscii;
    Transfer.FinishNext(c, id, v, SelectPublicKey(key, now));
    Transfer.FinishNext(c, id, v, RefreshKey(pk, key, now));
    var w := v.(row := Some(v.row.value.(publicKey := Some(pk), aes := Some(key))));
    Transfer.FinishNext(c, id, w, UpdateLastSeen(pk, key, now));
  }

  /** It is rejected if and only if it has no row or no public key in it; nothing changes then. */
  lemma ReconnectRejected(c: Crypto, id: Id, v: View, payload: Data, key: Data, now: nat)
    requires |payload| == 255 && IsAscii(UpToZero(payload))
    ensures var n := Handle(c, id, v, Reconnect(payload, key, now));
            && (n.reply == Some(ReconnectReject) <==> v.row.None? || v.row.value.publicKey in {None, Some([])})
            && (n.reply == Some(ReconnectReject) ==> n.view == v)
  {
    if v.row.Some? && v.row.value.publicKey.Some? && v.row.value.publicKey.value != [] {
      ReconnectAccepted(c, id, v, payload, key, now, v.row.value.publicKey.value);
    } else {
      Transfer.FinishNext(c, id, v, SelectPublicKey(key, now));
    }
    hide UpToZero, IsAscii, Handle;
  }

  lemma ReconnectMalformed(c: Crypto, id: Id, v: View, payload: Data, key: Data, now: nat)
    requires |payload| != 255 || !IsAscii(UpToZero(payload))
    ensures Handle(c, id, v, Reconnect(payload, key, now)) == Next(v, Idle, Some(GeneralError))
  {
    hide UpToZero, IsAscii;
  }

  /** The same on the database itself, through the numeric code. */
  method ReconnectAt827(h: RequestHandler, id: Id, payload: Data, env: Env, pk: Data) returns (raised: bool)
    requires |payload| == 255 && IsAscii(UpToZero(payload))
    requires id in h.db.clients && h.db.clients[id].publicKey == Some(pk) && pk != []
    modifies h, h.db, h.fs
    ensures !raised && h.fs.dirs == old(h.fs.dirs) && h.fs.disk == old(h.fs.disk) && h.db.records == old(h.db.records)
    ensures h.db.clients ==
      old(h.db.clients)[id := ClientRow(old(h.db.clients[id].name), Some(pk), env.now, Some(env.freshKey))]
    ensures h.sent == old(h.sent) + [match h.crypto.encryptKey(pk, env.freshKey)
                                     case Some(e) => ReconnectAccept(e)
                                     case None => GeneralError]
  {
    GlobalReconnect(h.crypto, h.State(), id, payload, env, pk);
    hide UpToZero, IsAscii, GlobalHandle, Route;
    raised := h.RouteRequest(827, id, payload, env);
  }

  lemma GlobalReconnect(c: Crypto, g: Global, id: Id, payload: Data, env: Env, pk: Data)
    requires |payload| == 255 && IsAscii(UpToZero(payload))
    requires id in g.clients && g.clients[id].publicKey == Some(pk) && pk != []
    ensures Route(c, g, id, 827, payload, env) ==
      GlobalNext(g.(clients := g.clients[id := ClientRow(g.clients[id].name, Some(pk), env.now, Some(env.freshKey))]),
                 Idle, Some(match c.encryptKey(pk, env.freshKey)
                            case Some(e) => ReconnectAccept(e)
                            case None => GeneralError))
  {
    hide UpToZero, IsAscii, GlobalFinish;
    var key, now := env.freshKey, env.now;
    Handlers.FinishNext(c, g, id, SelectPublicKey(key, now));
    Handlers.FinishNext(c, g, id, RefreshKey(pk, key, now));
    var h := g.(clients := Isolation.UpdateClientKey(g.clients, id, pk, key));
    Handlers.FinishNext(c, h, id, UpdateLastSeen(pk, key, now));
    var row := ClientRow(g.clients[id].name, Some(pk), now, Some(key));
    assert Isolation.UpdateClientLastSeen(h.clients, id, now) == g.clients[id := row];
  }

  // ---------- what the client holds ----------

  /** The key it takes out of a reply is the one that was enciphered for it; no other reply has one. */
  lemma KeyIsTaken(c: Crypto, pair: KeyPair, key: Data, e: Data, reply: Reply)
    requires Isolation.Fits(c, pair) && c.encryptKey(pair.publicKey, key) == Some(e)
    ensures GrantedKey(pair, PubKeyReceived(e)) == Some(key) && GrantedKey(pair, ReconnectAccept(e)) == Some(key)
    ensures !reply.PubKeyReceived? && !reply.ReconnectAccept? ==> GrantedKey(pair, reply) == None
  {
  }

  /** A reconnect in four steps of its thread: after the last one the client and its row have the fresh key. */
  lemma ReconnectGrants(c: Crypto, id: Id, pair: KeyPair, v: View, t: Thread, before: Option<Data>, payload: Data,
                        key: Data, now: nat)
    requires Isolation.Fits(c, pair) && t.task.Idle? && t.pending != []
    requires t.pending[0] == Reconnect(payload, key, now) && |payload| == 255 && IsAscii(UpToZero(payload))
    requires v.row.Some? && v.row.value.publicKey == Some(pair.publicKey) && pair.publicKey != []
    requires c.encryptKey(pair.publicKey, key).Some?
    ensures var (w, u) := Solo(c, id, v, t, 4);
            && ClientKey(c, id, pair, v, t, before, 4) == Some(key)
            && w.row.Some? && w.row.value.aes == Some(key) && u.task.Idle? && u.pending == t.pending[1..]
  {
    hide UpToZero, IsAscii;
    var row := v.row.value;
    var w3 := v.(row := Some(row.(aes := Some(key))));
    var t1 := Thread(t.pending[1..], SelectPublicKey(key, now), t.replies);
    var t2 := t1.(task := RefreshKey(pair.publicKey, key, now));
    var t3 := t1.(task := UpdateLastSeen(pair.publicKey, key, now));
    assert Solo(c, id, v, t, 0) == (v, t);
    assert Solo(c, id, v, t, 1) == (v, t1);
    assert Solo(c, id, v, t, 2) == (v, t2);
    assert Solo(c, id, v, t, 3) == (w3, t3);
    assert ClientKey(c, id, pair, v, t, before, 1) == before;
    assert ClientKey(c, id, pair, v, t, before, 2) == before;
    assert ClientKey(c, id, pair, v, t, before, 3) == before;
  }

  /** And a first key in two. */
  lemma PublicKeyGrants(c: Crypto, id: Id, pair: KeyPair, v: View, t: Thread, before: Option<Data>, payload: Data,
                        key: Data)
    requires Isolation.Fits(c, pair) && t.task.Idle? && t.pending != []
    requires t.pending[0] == SendPublicKey(payload, key) && |payload| == 415 && IsAscii(UpToZero(payload[..255]))
    requires payload[255..] == pair.publicKey && v.row.Some? && c.encryptKey(pair.publicKey, key).Some?
    ensures var (w, u) := Solo(c, id, v, t, 2);
            && ClientKey(c, id, pair, v, t, before, 2) == Some(key)
            && w.row.Some? && w.row.value.aes == Some(key) && u.task.Idle? && u.pending == t.pending[1..]
  {
    hide UpToZero, IsAscii;
    var t1 := Thread(t.pending[1..], UpdateKey(pair.publicKey, key), t.replies);
    assert Solo(c, id, v, t, 0) == (v, t);
    assert Solo(c, id, v, t, 1) == (v, t1);
    assert ClientKey(c, id, pair, v, t, before, 1) == before;
  }

  /** Steps of other requests leave the client its key. */
  lemma OthersKeepTheKey(c: Crypto, id: Id, pair: KeyPair, v: View, t: Thread, key: Option<Data>)
    requires if t.task.Idle? then t.pending != [] ==> !t.pending[0].SendPublicKey? && !t.pending[0].Reconnect?
             else !t.task.UpdateKey? && !t.task.SelectPublicKey? && !t.task.RefreshKey? && !t.task.UpdateLastSeen?
    ensures KeyAfter(c, id, pair, v, t, key) == key
  {
    hide Step, Start;
  }

  // ---------- packets ----------

  /** 828, the first packet: the file starts anew, whatever was there. */
  lemma FirstPacketStored(c: Crypto, id: Id, v: View, payload: Data, total: nat)
    requires Packet(payload, 1, total) && total != 1
    ensures var p := GetFilePayload(payload);
            Handle(c, id, v, ClientRequest.SendFile(payload)) ==
              if NamesAFile(Decode(p.name)) then
                Next(v.(dir := true, files := v.files[Decode(p.name) := p.data]), Idle, None)
              else Next(v.(dir := true), Idle, Some(GeneralError))
  {
    hide GetFilePayload, Decode, PathOf, Finish;
    var p := GetFilePayload(payload);
    var chunk := Chunk(Decode(p.name), 1, total, p.data);
    if NamesAFile(chunk.name) {
      Saves(c, id, v, chunk);
      assert Before(v, chunk) + chunk.data == p.data;
    } else {
      Opens(c, id, v, chunk);
    }
  }

  /** A later one: its data is appended; without a directory it is refused. */
  lemma LaterPacketStored(c: Crypto, id: Id, v: View, payload: Data, number: nat, total: nat)
    requires Packet(payload, number, total) && number != 1 && total != number
    ensures var p := GetFilePayload(payload);
            var name := Decode(p.name);
            Handle(c, id, v, ClientRequest.SendFile(payload)) ==
              if v.dir && NamesAFile(name) then
                Next(v.(files := v.files[name := (if name in v.files then v.files[name] else []) + p.data]), Idle, None)
              else Next(v, Idle, Some(GeneralError))
  {
    hide GetFilePayload, Decode, PathOf, Finish;
    var p := GetFilePayload(payload);
    var chunk := Chunk(Decode(p.name), number, total, p.data);
    if v.dir && NamesAFile(chunk.name) {
      Saves(c, id, v, chunk);
      assert v.(dir := true) == v;
    } else {
      Opens(c, id, v, chunk);
    }
  }

  predicate NamesAFile(name: string) {
    name != "" && name != "." && name != ".."
  }

  predicate Packet(payload: Data, number: nat, total: nat) {
    var p := GetFilePayload(payload);
    p.FilePayload? && p.packetNumber == number && p.totalPackets == total
  }

  lemma Opens(c: Crypto, id: Id, v: View, chunk: Chunk)
    ensures var task := if chunk.packetNumber == 1 then MakeDirectory(chunk) else OpenFile(chunk);
            var w := if chunk.packetNumber == 1 then v.(dir := true) else v;
            Finish(c, id, v, task) ==
              if !w.dir || !NamesAFile(chunk.name) then Next(w, Idle, Some(GeneralError))
              else Finish(c, id, w.(files := w.files[chunk.name := Before(v, chunk)]), WriteFile(chunk))
  {
    hide Finish;
    var w := if chunk.packetNumber == 1 then v.(dir := true) else v;
    if chunk.packetNumber == 1 {
      Transfer.FinishNext(c, id, v, MakeDirectory(chunk));
    }
    Transfer.FinishNext(c, id, w, OpenFile(chunk));
    if chunk.packetNumber != 1 && chunk.name in v.files {
      assert w.files[chunk.name := v.files[chunk.name]] == w.files;
    }
  }

  /** What a packet is appended to. */
  function Before(v: View, chunk: Chunk): Data {
    if chunk.packetNumber != 1 && chunk.name in v.files then v.files[chunk.name] else []
  }

  lemma Writes(c: Crypto, id: Id, v: View, chunk: Chunk)
    requires chunk.name in v.files
    ensures var after := v.(files := v.files[chunk.name := v.files[chunk.name] + chunk.data]);
            Finish(c, id, v, WriteFile(chunk)) ==
              if chunk.packetNumber == chunk.totalPackets then Finish(c, id, after, SelectKey(chunk))
              else Next(after, Idle, None)
  {
    hide Finish;
    Transfer.FinishNext(c, id, v, WriteFile(chunk));
  }

  /** Opening and writing together. */
  lemma Saves(c: Crypto, id: Id, v: View, chunk: Chunk)
    requires NamesAFile(chunk.name) && (chunk.packetNumber == 1 || v.dir)
    ensures var task := if chunk.packetNumber == 1 then MakeDirectory(chunk) else OpenFile(chunk);
            var after := v.(dir := true, files := v.files[chunk.name := Before(v, chunk) + chunk.data]);
            Finish(c, id, v, task) ==
              if chunk.packetNumber == chunk.totalPackets then Finish(c, id, after, SelectKey(chunk))
              else Next(after, Idle, None)
  {
    hide Finish;
    Opens(c, id, v, chunk);
    var w := v.(dir := true, files := v.files[chunk.name := Before(v, chunk)]);
    assert chunk.packetNumber != 1 ==> v.(dir := true) == v;
    Writes(c, id, w, chunk);
    assert w.files[chunk.name := Before(v, chunk) + chunk.data]
        == v.files[chunk.name := Before(v, chunk) + chunk.data];
  }

  /**
   The last packet: the file is decrypted in its place with the key of the row, a row is added, and the answer has
   the checksum of the plaintext. Each failure is answered with an error and leaves what was done before it.
   */
  lemma LastPacketProcessed(c: Crypto, id: Id, v: View, payload: Data, number: nat, key: Option<Data>)
    requires Packet(payload, number, number) && (number == 1 || v.dir) && NamesAFile(Decode(GetFilePayload(payload).name))
    requires key == if v.row.Some? && v.row.value.aes != Some([]) then v.row.value.aes else None
    ensures var p := GetFilePayload(payload);
            var name := Decode(p.name);
            var all := (if number != 1 && name in v.files then v.files[name] else []) + p.data;
            var w := v.(dir := true, files := v.files[name := all]);
            var n := Handle(c, id, v, ClientRequest.SendFile(payload));
            if key.None? || c.decrypt(key.value, all).None? then n == Next(w, Idle, Some(GeneralError))
            else
              var plain := c.decrypt(key.value, all).value;
              var stored := v.(dir := true, files := v.files[name := plain]);
              if |PathOf(id, name)| > 255 then n == Next(stored, Idle, Some(GeneralError))
              else
                && n.task.Idle? && n.view == stored.(rows := v.rows + [FileRow(name, PathOf(id, name), false)])
                && n.reply == Some(if |all| < 0x1_0000_0000 then FileOK(|all|, name, Cksum(plain)) else GeneralError)
  {
    hide GetFilePayload, Decode, PathOf, Finish, Cksum;
    var p := GetFilePayload(payload);
    var chunk := Chunk(Decode(p.name), number, number, p.data);
    Saves(c, id, v, chunk);
    NameFits(payload);
    var all := Before(v, chunk) + p.data;
    var w := v.(dir := true, files := v.files[chunk.name := all]);
    Transfer.FileIsProcessed(c, id, w, chunk, key);
    if key.Some? && c.decrypt(key.value, all).Some? {
      var plain := c.decrypt(key.value, all).value;
      assert w.files[chunk.name := plain] == v.files[chunk.name := plain];
    }
  }

  lemma NameFits(payload: Data)
    ensures var p := GetFilePayload(payload); p.FilePayload? ==> |Decode(p.name)| <= 255
  {
    if |payload| >= 267 {
      ShorterName(payload[12..267]);
      BaseNameShorter(UpToZero(payload[12..267]));
    }
  }

  lemma {:induction false} ShorterName(f: seq<bv8>)
    ensures |UpToZero(f)| <= |f|
  {
    if f != [] {
      ShorterName(f[1..]);
    }
  }

  lemma {:induction false} BaseNameShorter(f: seq<bv8>)
    ensures |BaseName(f)| <= |f|
  {
    if f != [] {
      BaseNameShorter(f[..|f| - 1]);
    }
  }

  /** A payload that is too short for its header is refused. */
  lemma ShortPacketRefused(c: Crypto, id: Id, v: View, payload: Data)
    requires |payload| < 267
    ensures Handle(c, id, v, ClientRequest.SendFile(payload)) == Next(v, Idle, Some(GeneralError))
  {
  }

  // ---------- verdicts ----------

  /** 900: every row of that name becomes verified, and no other changes. */
  lemma Confirmed(c: Crypto, id: Id, v: View, payload: Data)
    requires |payload| >= 255 && IsAscii(UpToZero(payload[..255]))
    ensures var n := Handle(c, id, v, CRCOK(payload));
            var name := Decode(BaseName(UpToZero(payload[..255])));
            && n.task.Idle? && n.reply == Some(MessageACK) && n.view == v.(rows := n.view.rows)
            && |n.view.rows| == |v.rows|
            && forall i :: 0 <= i < |v.rows| ==>
                 n.view.rows[i] ==
                   if v.rows[i].filename == name then FileRow(v.rows[i].filename, v.rows[i].pathname, true) else v.rows[i]
  {
    hide UpToZero, IsAscii, Decode, BaseName;
    Transfer.FinishNext(c, id, v, UpdateVerified(Decode(BaseName(UpToZero(payload[..255])))));
  }

  /** 901 is not answered and 902 only acknowledged; neither changes anything. */
  lemma NothingChanges(c: Crypto, id: Id, v: View, payload: Data)
    ensures Handle(c, id, v, CRCBadResend) == Next(v, Idle, None)
    ensures |payload| >= 255 && IsAscii(UpToZero(payload[..255])) ==>
      Handle(c, id, v, CRCBadDone(payload)) == Next(v, Idle, Some(MessageACK))
    ensures |payload| < 255 ==>
      && Handle(c, id, v, CRCBadDone(payload)) == Next(v, Idle, Some(GeneralError))
      && Handle(c, id, v, CRCOK(payload)) == Next(v, Idle, Some(GeneralError))
  {
    hide UpToZero, IsAscii, Decode, BaseName;
  }

  // ---------- paths ----------

  /** Under the uploads folder, in a directory named by the identifier in hexadecimal. */
  lemma PathIs(id: Id, name: string)
    ensures PathOf(id, name) == "uploads/" + BytesToHex(id) + "/" + name
  {
    hide BytesToHex;
  }
}
