/** The server's handlers as the code runs them, on the database and the file system. */
module Handlers {
  import opened Framing
  import opened Isolation
  import opened Options
  import opened Server

  /** The rest of a handler without interruption, on the shared state. */
  function GlobalFinish(c: Crypto, g: Global, id: Id, task: Task): GlobalNext
    decreases Rank(task)
  {
    var n := GlobalStep(c, g, id, task);
    GlobalStepComesCloser(c, g, id, task);
    if task.Idle? || task.Dead? || n.task.Idle? || n.task.Dead? then n else GlobalFinish(c, n.state, id, n.task)
  }

  lemma GlobalStepComesCloser(c: Crypto, g: Global, id: Id, task: Task)
    ensures task.Idle? || task.Dead? || Rank(GlobalStep(c, g, id, task).task) < Rank(task)
  {
    hide ViewOf;
    StepIsLocal(c, g, id, task);
    StepComesCloser(c, id, ViewOf(g, id), task);
  }

  function GlobalHandle(c: Crypto, g: Global, id: Id, request: ClientRequest): GlobalNext {
    var (task, reply) := Start(request);
    if task.Idle? || task.Dead? then GlobalNext(g, task, reply) else GlobalFinish(c, g, id, task)
  }

  /** A whole handler, too, works on its client's view alone. */
  lemma HandleIsLocal(c: Crypto, g: Global, id: Id, request: ClientRequest)
    ensures var n := GlobalHandle(c, g, id, request);
            && Handle(c, id, ViewOf(g, id), request) == Next(ViewOf(n.state, id), n.task, n.reply)
            && forall other: Id :: other != id ==> ViewOf(n.state, other) == ViewOf(g, other)
  {
    hide ViewOf, Start, Finish, GlobalFinish;
    var (task, _) := Start(request);
    if !task.Idle? && !task.Dead? {
      FinishIsLocal(c, g, id, task);
    }
  }

  lemma {:induction false} FinishIsLocal(c: Crypto, g: Global, id: Id, task: Task)
    ensures var n := GlobalFinish(c, g, id, task);
            && Finish(c, id, ViewOf(g, id), task) == Next(ViewOf(n.state, id), n.task, n.reply)
            && forall other: Id :: other != id ==> ViewOf(n.state, other) == ViewOf(g, other)
    decreases Rank(task)
  {
    hide ViewOf, GlobalStep, Step;
    StepIsLocal(c, g, id, task);
    GlobalStepComesCloser(c, g, id, task);
    var n := GlobalStep(c, g, id, task);
    if !(task.Idle? || task.Dead? || n.task.Idle? || n.task.Dead?) {
      FinishIsLocal(c, n.state, id, n.task);
    }
  }

  // ---------- registration, and the codes of requests ----------

  /** What the server draws at random or reads from the clock for a request. */
  datatype Env = Env(freshKey: Data, newId: Id, now: nat)

  predicate NameTaken(clients: map<Id, ClientRow>, name: string) {
    exists id :: id in clients && clients[id].name == name
  }

  /** A name in use, or one the table does not take, is refused, and so is an identifier drawn twice. */
  function Register(g: Global, payload: Data, env: Env): (n: GlobalNext)
    ensures n.task == Idle
  {
    var name := UpToZero(payload);
    if !IsAscii(name) || name == [] || NameTaken(g.clients, Decode(name)) || |name| > NAME_LEN || env.newId in g.clients
    then GlobalNext(g, Idle, Some(RegisterFail))
    else
      GlobalNext(g.(clients := g.clients[env.newId := ClientRow(Decode(name), None, env.now, None)]), Idle,
                 Some(RegisterSuccess(env.newId)))
  }

  function Route(c: Crypto, g: Global, id: Id, code: nat, payload: Data, env: Env): GlobalNext {
    match DecodeRequest(code, payload, env.freshKey, env.now)
    case Invalid => GlobalNext(g, Idle, None)
    case Registration(payload) => Register(g, payload, env)
    case Known(request) => GlobalHandle(c, g, id, request)
  }

  ghost predicate DistinctNames(clients: map<Id, ClientRow>) {
    forall a, b :: a in clients && b in clients && a != b ==> clients[a].name != clients[b].name
  }

  /** Registration gives a new client its row and leaves everything of the others; names stay distinct. */
  lemma RegisterIsLocal(g: Global, payload: Data, env: Env, other: Id)
    ensures var n := Register(g, payload, env);
            && (other in g.clients ==> ViewOf(n.state, other) == ViewOf(g, other))
            && (DistinctNames(g.clients) ==> DistinctNames(n.state.clients))
            && (n.reply == Some(RegisterSuccess(env.newId)) <==> env.newId !in g.clients && env.newId in n.state.clients)
  {
    hide UpToZero, IsAscii, Decode, PathOf, Directory;
  }

  class Database {
    var clients: map<Id, ClientRow>
    var records: seq<Record>

    constructor (cs: map<Id, ClientRow>, rs: seq<Record>)
      ensures clients == cs && records == rs
    {
      clients, records := cs, rs;
    }

    method ClientExists(name: string) returns (found: bool)
      ensures found == NameTaken(clients, name)
    {
      found := exists id :: id in clients && clients[id].name == name;
    }

    /** Fails when the name is longer than the table allows, or the identifier is there. */
    method RegisterClient(id: Id, name: string, now: nat) returns (ok: bool)
      modifies this`clients
      ensures ok == (|name| <= NAME_LEN && id !in old(clients))
      ensures clients == if ok then old(clients)[id := ClientRow(name, None, now, None)] else old(clients)
    {
      ok := |name| <= NAME_LEN && id !in clients;
      if ok {
        clients := clients[id := ClientRow(name, None, now, None)];
      }
    }

    method UpdateClientKey(id: Id, publicKey: Data, key: Data) returns (found: bool)
      modifies this`clients
      ensures clients == Isolation.UpdateClientKey(old(clients), id, publicKey, key)
      ensures found == (id in old(clients))
    {
      found := id in clients;
      if found {
        clients := clients[id := clients[id].(publicKey := Some(publicKey), aes := Some(key))];
      }
    }

    method UpdateClientLastSeen(id: Id, now: nat) returns (found: bool)
      modifies this`clients
      ensures clients == Isolation.UpdateClientLastSeen(old(clients), id, now)
      ensures found == (id in old(clients))
    {
      found := id in clients;
      if found {
        clients := clients[id := clients[id].(lastSeen := now)];
      }
    }

    method GetClientPublicKey(id: Id) returns (key: Option<Data>)
      ensures key == if id in clients then NonEmpty(clients[id].publicKey) else None
    {
      if id in clients && clients[id].publicKey.Some? && clients[id].publicKey.value != [] {
        return clients[id].publicKey;
      }
      return None;
    }

    method GetClientAesKey(id: Id) returns (key: Option<Data>)
      ensures key == if id in clients then NonEmpty(clients[id].aes) else None
    {
      if id in clients && clients[id].aes.Some? && clients[id].aes.value != [] {
        return clients[id].aes;
      }
      return None;
    }

    /** Fails when a name is longer than the table allows. */
    method SaveFile(id: Id, filename: string, pathname: string) returns (ok: bool)
      modifies this`records
      ensures ok == (|filename| <= NAME_LEN && |pathname| <= NAME_LEN)
      ensures records == if ok then old(records) + [Record(id, FileRow(filename, pathname, false))] else old(records)
    {
      ok := |filename| <= NAME_LEN && |pathname| <= NAME_LEN;
      if ok {
        records := records + [Record(id, FileRow(filename, pathname, false))];
      }
    }

    method UpdateFileVerified(id: Id, filename: string) returns (found: bool)
      modifies this`records
      ensures records == Isolation.UpdateFileVerified(old(records), id, filename)
      ensures found == exists i ::
        0 <= i < |old(records)| && old(records)[i].id == id && old(records)[i].row.filename == filename
    {
      found := false;
      for i := 0 to |records|
        invariant |records| == |old(records)|
        invariant forall j :: i <= j < |records| ==> records[j] == old(records)[j]
        invariant forall j :: 0 <= j < i ==> records[j] == Isolation.UpdateFileVerified(old(records), id, filename)[j]
        invariant found == exists j ::
          0 <= j < i && old(records)[j].id == id && old(records)[j].row.filename == filename
      {
        if records[i].id == id && records[i].row.filename == filename {
          records := records[i := records[i].(row := records[i].row.(verified := true))];
          found := true;
        }
      }
    }
  }

  class FileSystem {
    var dirs: set<string>
    var disk: map<string, Data>

    constructor (ds: set<string>, d: map<string, Data>)
      ensures dirs == ds && disk == d
    {
      dirs, disk := ds, d;
    }

    method MakeDirs(dir: string)
      modifies this`dirs
      ensures dirs == old(dirs) + {dir}
    {
      dirs := dirs + {dir};
    }

    /** open with mode 'wb', or 'ab', of a name in a directory. */
    method Open(dir: string, name: string, truncate: bool) returns (ok: bool)
      modifies this`disk
      ensures ok == (dir in dirs && IsFileName(name))
      ensures var path := dir + "/" + name;
              disk == if ok && (truncate || path !in old(disk)) then old(disk)[path := []] else old(disk)
    {
      var path := dir + "/" + name;
      ok := dir in dirs && IsFileName(name);
      if ok && (truncate || path !in disk) {
        disk := disk[path := []];
      }
    }

    method Append(path: string, data: Data) returns (ok: bool)
      modifies this`disk
      ensures ok == (path in old(disk))
      ensures disk == if path in old(disk) then old(disk)[path := old(disk)[path] + data] else old(disk)
    {
      ok := path in disk;
      if ok {
        disk := disk[path := disk[path] + data];
      }
    }

    method Read(path: string) returns (data: Option<Data>)
      ensures data == if path in disk then Some(disk[path]) else None
    {
      return if path in disk then Some(disk[path]) else None;
    }

    /** One of the two operations of writing a file anew: it is emptied, and then filled. */
    method Write(path: string, data: Data)
      modifies this`disk
      ensures disk == old(disk)[path := data]
    {
      disk := disk[path := data];
    }
  }

  class RequestHandler {
    const crypto: Crypto
    const db: Database
    const fs: FileSystem
    /** The replies that went out. */
    var sent: seq<Reply>

    constructor (c: Crypto, database: Database, files: FileSystem)
      ensures crypto == c && db == database && fs == files && sent == []
    {
      crypto, db, fs, sent := c, database, files, [];
    }

    function State(): Global
      reads db, fs
    {
      Global(fs.dirs, fs.disk, db.clients, db.records)
    }

    method SendResponse(reply: Reply)
      modifies this
      ensures sent == old(sent) + [reply]
    {
      sent := sent + [reply];
    }

    /** Hands a request to its handler. An exception that no handler catches ends the connection. */
    method RouteRequest(code: nat, id: Id, payload: Data, env: Env) returns (raised: bool)
      modifies this, db, fs
      ensures var n := Route(crypto, old(State()), id, code, payload, env);
              State() == n.state && sent == Answer(old(sent), n.reply) && raised == n.task.Dead?
    {
      hide GlobalHandle, Register;
      raised := false;
      match DecodeRequest(code, payload, env.freshKey, env.now) {
        case Invalid =>
        case Registration(payload) => HandleRegistration(payload, env);
        case Known(request) =>
          match request {
            case SendPublicKey(payload, freshKey) => raised := HandlePublicKey(id, payload, freshKey);
            case Reconnect(payload, freshKey, now) => raised := HandleReconnect(id, payload, freshKey, now);
            case SendFile(payload) => raised := HandleSendFile(id, payload);
            case CRCOK(payload) => raised := HandleCrcOk(id, payload);
            case CRCBadDone(payload) => raised := HandleCrcAbort(id, payload);
            case CRCBadResend => NothingToDo(crypto, State(), id);
          }
      }
    }

    method HandleRegistration(payload: Data, env: Env)
      modifies this, db
      ensures var n := Register(old(State()), payload, env);
              State() == n.state && sent == Answer(old(sent), n.reply)
    {
      hide UpToZero, IsAscii, Decode;
      var name := UpToZero(payload);
      if !IsAscii(name) || name == [] {
        SendResponse(RegisterFail);
        return;
      }
      var found := db.ClientExists(Decode(name));
      if found {
        SendResponse(RegisterFail);
        return;
      }
      var ok := db.RegisterClient(env.newId, Decode(name), env.now);
      SendResponse(if ok then RegisterSuccess(env.newId) else RegisterFail);
    }

    method HandlePublicKey(id: Id, payload: Data, freshKey: Data) returns (raised: bool)
      modifies this, db
      ensures var n := GlobalHandle(crypto, old(State()), id, SendPublicKey(payload, freshKey));
              State() == n.state && sent == Answer(old(sent), n.reply) && raised == n.task.Dead?
    {
      hide UpToZero, IsAscii;
      raised := false;
      if |payload| != NAME_LEN + PUBLIC_KEY_LEN {
        SendResponse(GeneralError);
        return;
      }
      if !IsAscii(UpToZero(payload[..NAME_LEN])) {
        SendResponse(GeneralError);
        return;
      }
      var publicKey := payload[NAME_LEN..];
      var found := db.UpdateClientKey(id, publicKey, freshKey);
      if !found {
        SendResponse(GeneralError);
        return;
      }
      var encrypted := crypto.encryptKey(publicKey, freshKey);
      if encrypted.None? {
        SendResponse(GeneralError);
        return;
      }
      SendResponse(PubKeyReceived(encrypted.value));
    }

    method HandleReconnect(id: Id, payload: Data, freshKey: Data, now: nat) returns (raised: bool)
      modifies this, db
      ensures var n := GlobalHandle(crypto, old(State()), id, Reconnect(payload, freshKey, now));
              State() == n.state && sent == Answer(old(sent), n.reply) && raised == n.task.Dead?
    {
      hide UpToZero, IsAscii, GlobalFinish;
      raised := false;
      ghost var g := State();
      if |payload| != NAME_LEN {
        SendResponse(GeneralError);
        return;
      }
      if !IsAscii(UpToZero(payload)) {
        SendResponse(GeneralError);
        return;
      }
      FinishNext(crypto, State(), id, SelectPublicKey(freshKey, now));
      var publicKey := db.GetClientPublicKey(id);
      if publicKey.None? {
        SendResponse(ReconnectReject);
        return;
      }
      FinishNext(crypto, State(), id, RefreshKey(publicKey.value, freshKey, now));
      var _ := db.UpdateClientKey(id, publicKey.value, freshKey);
      FinishNext(crypto, State(), id, UpdateLastSeen(publicKey.value, freshKey, now));
      var _ := db.UpdateClientLastSeen(id, now);
      var encrypted := crypto.encryptKey(publicKey.value, freshKey);
      if encrypted.None? {
        SendResponse(GeneralError);
        return;
      }
      SendResponse(ReconnectAccept(encrypted.value));
    }

    method HandleSendFile(id: Id, payload: Data) returns (raised: bool)
      modifies this, db, fs
      ensures var n := GlobalHandle(crypto, old(State()), id, SendFile(payload));
              State() == n.state && sent == Answer(old(sent), n.reply) && raised == n.task.Dead?
    {
      hide GetFilePayload, Decode, GlobalFinish;
      raised := false;
      match GetFilePayload(payload) {
        case TooShort =>
          SendResponse(GeneralError);
        case NotAscii =>
          raised := true;
        case FilePayload(_, _, number, total, name, data) =>
          var chunk := Chunk(Decode(name), number, total, data);
          var saved := SaveChunk(id, chunk);
          if !saved {
            SendResponse(GeneralError);
            return;
          }
          if number == total {
            var processed := ProcessFile(id, chunk);
            if processed.None? {
              SendResponse(GeneralError);
              return;
            }
            SendResponse(Confirm(processed.value.0, chunk.name, processed.value.1));
          }
      }
    }

    /** The first packet starts the file anew; the others are appended. */
    method SaveChunk(id: Id, chunk: Chunk) returns (ok: bool)
      modifies fs
      ensures
        var task := if chunk.packetNumber == 1 then MakeDirectory(chunk) else OpenFile(chunk);
        var n := GlobalFinish(crypto, old(State()), id, task);
        if !ok then n == FailAll(State())
        else if chunk.packetNumber == chunk.totalPackets then n == GlobalFinish(crypto, State(), id, SelectKey(chunk))
        else n == GlobalNext(State(), Idle, None)
    {
      hide GlobalFinish, Directory;
      var dir := Directory(id);
      if chunk.packetNumber == 1 {
        FinishNext(crypto, State(), id, MakeDirectory(chunk));
        fs.MakeDirs(dir);
      }
      FinishNext(crypto, State(), id, OpenFile(chunk));
      ok := fs.Open(dir, chunk.name, chunk.packetNumber == 1);
      if !ok {
        return;
      }
      FinishNext(crypto, State(), id, WriteFile(chunk));
      ok := fs.Append(dir + "/" + chunk.name, chunk.data);
    }

    /** Decrypts the file in its place, takes its checksum, and adds its row. */
    method ProcessFile(id: Id, chunk: Chunk) returns (r: Option<(nat, bv32)>)
      modifies db, fs
      ensures
        var n := GlobalFinish(crypto, old(State()), id, SelectKey(chunk));
        n == if r.None? then FailAll(State())
            else GlobalNext(State(), Idle, Some(Confirm(r.value.0, chunk.name, r.value.1)))
    {
      hide GlobalFinish, Confirm, PathOf;
      var path := PathOf(id, chunk.name);
      FinishNext(crypto, State(), id, SelectKey(chunk));
      var key := db.GetClientAesKey(id);
      if key.None? {
        return None;
      }
      FinishNext(crypto, State(), id, ReadFile(chunk, key.value));
      var data := fs.Read(path);
      if data.None? {
        return None;
      }
      var plain := crypto.decrypt(key.value, data.value);
      if plain.None? {
        return None;
      }
      r := StorePlain(id, chunk, |data.value|, plain.value);
    }

    method StorePlain(id: Id, chunk: Chunk, size: nat, plain: Data) returns (r: Option<(nat, bv32)>)
      modifies db, fs
      ensures
        var n := GlobalFinish(crypto, old(State()), id, TruncateFile(chunk, size, plain));
        n == if r.None? then FailAll(State())
            else GlobalNext(State(), Idle, Some(Confirm(r.value.0, chunk.name, r.value.1)))
    {
      hide GlobalFinish, Confirm, PathOf, Crc.Cksum;
      var path := PathOf(id, chunk.name);
      FinishNext(crypto, State(), id, TruncateFile(chunk, size, plain));
      fs.Write(path, []);
      FinishNext(crypto, State(), id, StoreFile(chunk, size, plain));
      fs.Write(path, plain);
      var crc := Crc.MemcrcPython(plain);
      FinishNext(crypto, State(), id, InsertFile(chunk, size, crc));
      var ok := db.SaveFile(id, chunk.name, path);
      if !ok {
        return None;
      }
      return Some((size, crc));
    }

    method HandleCrcOk(id: Id, payload: Data) returns (raised: bool)
      modifies this, db
      ensures var n := GlobalHandle(crypto, old(State()), id, CRCOK(payload));
              State() == n.state && sent == Answer(old(sent), n.reply) && raised == n.task.Dead?
    {
      hide UpToZero, IsAscii, Decode, BaseName;
      raised := false;
      if |payload| < NAME_LEN {
        SendResponse(GeneralError);
        return;
      }
      var name := UpToZero(payload[..NAME_LEN]);
      if !IsAscii(name) {
        return true;
      }
      var _ := db.UpdateFileVerified(id, Decode(BaseName(name)));
      SendResponse(MessageACK);
    }

    method HandleCrcAbort(id: Id, payload: Data) returns (raised: bool)
      modifies this
      ensures var n := GlobalHandle(crypto, old(State()), id, CRCBadDone(payload));
              State() == n.state && sent == Answer(old(sent), n.reply) && raised == n.task.Dead?
    {
      hide UpToZero, IsAscii;
      raised := false;
      if |payload| < NAME_LEN {
        SendResponse(GeneralError);
        return;
      }
      if !IsAscii(UpToZero(payload[..NAME_LEN])) {
        return true;
      }
      SendResponse(MessageACK);
    }
  }

  lemma NothingToDo(c: Crypto, g: Global, id: Id)
    ensures GlobalHandle(c, g, id, CRCBadResend) == GlobalNext(g, Idle, None)
  {
  }

  lemma FinishNext(c: Crypto, g: Global, id: Id, task: Task)
    requires !task.Idle? && !task.Dead?
    ensures var n := GlobalStep(c, g, id, task);
            GlobalFinish(c, g, id, task) == if n.task.Idle? || n.task.Dead? then n
                else GlobalFinish(c, n.state, id, n.task)
  {
    hide GlobalStep;
  }
}
