/** What the server does for one client: its handlers as sequences of single file operations and SQL statements. */
module Server {
  import opened Crc
  import opened Framing
  import opened OctetValues
  import opened Options

  type Data = seq<bv8>

  /** A row of the clients table, without its key. */
  datatype ClientRow = ClientRow(name: string, publicKey: Option<Data>, lastSeen: nat, aes: Option<Data>)

  /** A row of the files table, without its owner. */
  datatype FileRow = FileRow(filename: string, pathname: string, verified: bool)

  /** The part of disk and database that belongs to one client. */
  datatype View = View(dir: bool, files: imap<string, Data>, row: Option<ClientRow>, rows: seq<FileRow>)

  /** The library calls: AES-CBC decryption with its padding check, and encryption of a key with a public key. */
  datatype Crypto = Crypto(decrypt: (Data, Data) -> Option<Data>, encryptKey: (Data, Data) -> Option<Data>)

  /** Requests after registration; what the server draws at random or reads from the clock comes with them. */
  datatype ClientRequest =
    | SendPublicKey(payload: Data, freshKey: Data)
    | Reconnect(payload: Data, freshKey: Data, now: nat)
    | SendFile(payload: Data)
    | CRCOK(payload: Data)
    | CRCBadResend
    | CRCBadDone(payload: Data)

  // The codes of requests.
  const REGISTER: nat := 825
  const SEND_PUBLIC_KEY: nat := 826
  const RECONNECT: nat := 827
  const SEND_FILE: nat := 828
  const CRC_OK: nat := 900
  const CRC_BAD_RESEND: nat := 901
  const CRC_BAD_DONE: nat := 902

  /** What a code and a payload ask for; an unknown code asks for nothing. */
  datatype Decoded = Invalid | Registration(payload: Data) | Known(request: ClientRequest)

  function DecodeRequest(code: nat, payload: Data, freshKey: Data, now: nat): Decoded {
    if code == REGISTER then Registration(payload)
    else if code == SEND_PUBLIC_KEY then Known(SendPublicKey(payload, freshKey))
    else if code == RECONNECT then Known(Reconnect(payload, freshKey, now))
    else if code == SEND_FILE then Known(ClientRequest.SendFile(payload))
    else if code == CRC_OK then Known(CRCOK(payload))
    else if code == CRC_BAD_RESEND then Known(CRCBadResend)
    else if code == CRC_BAD_DONE then Known(CRCBadDone(payload))
    else Invalid
  }

  datatype Reply =
    | RegisterSuccess(newId: Id)
    | RegisterFail
    | PubKeyReceived(encryptedKey: Data)
    | ReconnectAccept(encryptedKey: Data)
    | ReconnectReject
    | FileOK(contentSize: nat, name: string, crc: bv32)
    | MessageACK
    | GeneralError

  /** Where a handler is, with its local variables. */
  datatype Task =
    | Idle
    | Dead
    | UpdateKey(publicKey: Data, key: Data)
    | SelectPublicKey(key: Data, now: nat)
    | RefreshKey(publicKey: Data, key: Data, now: nat)
    | UpdateLastSeen(publicKey: Data, key: Data, now: nat)
    | MakeDirectory(chunk: Chunk)
    | OpenFile(chunk: Chunk)
    | WriteFile(chunk: Chunk)
    | SelectKey(chunk: Chunk)
    | ReadFile(chunk: Chunk, key: Data)
    | TruncateFile(chunk: Chunk, size: nat, plain: Data)
    | StoreFile(chunk: Chunk, size: nat, plain: Data)
    | InsertFile(chunk: Chunk, size: nat, crc: bv32)
    | UpdateVerified(name: string)

  datatype Chunk = Chunk(name: string, packetNumber: nat, totalPackets: nat, data: Data)

  /** What one operation of a handler leads to. */
  datatype Next = Next(view: View, task: Task, reply: Option<Reply>)

  const PUBLIC_KEY_LEN: nat := 160
  const UPLOAD_FOLDER: string := "uploads"

  /** bytes.decode('ascii') */
  function Decode(s: seq<bv8>): (t: string)
    ensures |t| == |s|
  {
    seq(|s|, i requires 0 <= i < |s| => Value(s[i]) as char)
  }

  function Directory(id: seq<bv8>): string {
    UPLOAD_FOLDER + "/" + BytesToHex(id)
  }

  function PathOf(id: seq<bv8>, name: string): string {
    Directory(id) + "/" + name
  }

  /** Names that can be opened in a directory; the others name the directory itself or the one above. */
  predicate IsFileName(name: string) {
    name != "" && name != "." && name != ".."
  }

  /** The first part of a handler, up to its first operation on disk or database. */
  function Start(request: ClientRequest): (Task, Option<Reply>) {
    match request
    case SendPublicKey(payload, key) =>
      if |payload| != NAME_LEN + PUBLIC_KEY_LEN || !IsAscii(UpToZero(payload[..NAME_LEN])) then
        (Idle, Some(GeneralError))
      else (UpdateKey(payload[NAME_LEN..], key), None)
    case Reconnect(payload, key, now) =>
      if |payload| != NAME_LEN || !IsAscii(UpToZero(payload)) then (Idle, Some(GeneralError))
      else (SelectPublicKey(key, now), None)
    case SendFile(payload) =>
      (match GetFilePayload(payload)
       case TooShort => (Idle, Some(GeneralError))
       case NotAscii => (Dead, None)
       case FilePayload(_, _, number, total, name, data) =>
         var chunk := Chunk(Decode(name), number, total, data);
         (if number == 1 then MakeDirectory(chunk) else OpenFile(chunk), None))
    case CRCOK(payload) =>
      if |payload| < NAME_LEN then (Idle, Some(GeneralError))
      else
        var name := UpToZero(payload[..NAME_LEN]);
        if !IsAscii(name) then (Dead, None) else (UpdateVerified(Decode(BaseName(name))), None)
    case CRCBadResend => (Idle, None)
    case CRCBadDone(payload) =>
      if |payload| < NAME_LEN then (Idle, Some(GeneralError))
      else if !IsAscii(UpToZero(payload[..NAME_LEN])) then (Dead, None)
      else (Idle, Some(MessageACK))
  }

  function Fail(v: View): Next {
    Next(v, Idle, Some(GeneralError))
  }

  function NonEmpty(d: Option<Data>): Option<Data> {
    if d.Some? && d.value != [] then d else None
  }

  /** UPDATE files SET Verified = true WHERE Filename = name, among the rows of one client: all of them. */
  function Verify(rows: seq<FileRow>, name: string): (after: seq<FileRow>)
    ensures |after| == |rows|
  {
    seq(|rows|, i requires 0 <= i < |rows| => if rows[i].filename == name then rows[i].(verified := true) else rows[i])
  }

  /** The answer to a file that is stored; a size of more than 32 bits does not fit it. */
  function Confirm(size: nat, name: string, crc: bv32): Reply {
    if size < 0x1_0000_0000 then FileOK(size, name, crc) else GeneralError
  }

  function KeyReply(c: Crypto, publicKey: Data, key: Data, accept: Data -> Reply): Reply {
    match c.encryptKey(publicKey, key)
    case None => GeneralError
    case Some(e) => accept(e)
  }

  /** One file operation or SQL statement, and what follows it without touching disk or database. */
  function Step(c: Crypto, id: seq<bv8>, v: View, task: Task): Next {
    match task
    case Idle => Next(v, Idle, None)
    case Dead => Next(v, Dead, None)
    case UpdateKey(publicKey, key) =>
      if v.row.None? then Fail(v)
      else
        Next(v.(row := Some(v.row.value.(publicKey := Some(publicKey), aes := Some(key)))), Idle,
             Some(KeyReply(c, publicKey, key, e => PubKeyReceived(e))))
    case SelectPublicKey(key, now) =>
      (match if v.row.Some? then NonEmpty(v.row.value.publicKey) else None
       case None => Next(v, Idle, Some(ReconnectReject))
       case Some(publicKey) => Next(v, RefreshKey(publicKey, key, now), None))
    case RefreshKey(publicKey, key, now) =>
      var row := if v.row.None? then None else Some(v.row.value.(publicKey := Some(publicKey), aes := Some(key)));
      Next(v.(row := row), UpdateLastSeen(publicKey, key, now), None)
    case UpdateLastSeen(publicKey, key, now) =>
      var row := if v.row.None? then None else Some(v.row.value.(lastSeen := now));
      Next(v.(row := row), Idle, Some(KeyReply(c, publicKey, key, e => ReconnectAccept(e))))
    case MakeDirectory(chunk) => Next(v.(dir := true), OpenFile(chunk), None)
    case OpenFile(chunk) =>
      if !v.dir || !IsFileName(chunk.name) then Fail(v)
      else if chunk.packetNumber == 1 || chunk.name !in v.files then
        Next(v.(files := v.files[chunk.name := []]), WriteFile(chunk), None)
      else Next(v, WriteFile(chunk), None)
    case WriteFile(chunk) =>
      if chunk.name !in v.files then Fail(v)
      else
        Next(v.(files := v.files[chunk.name := v.files[chunk.name] + chunk.data]),
             if chunk.packetNumber == chunk.totalPackets then SelectKey(chunk) else Idle, None)
    case SelectKey(chunk) =>
      (match if v.row.Some? then NonEmpty(v.row.value.aes) else None
       case None => Fail(v)
       case Some(key) => Next(v, ReadFile(chunk, key), None))
    case ReadFile(chunk, key) =>
      if chunk.name !in v.files then Fail(v)
      else
        (match c.decrypt(key, v.files[chunk.name])
         case None => Fail(v)
         case Some(plain) => Next(v, TruncateFile(chunk, |v.files[chunk.name]|, plain), None))
    case TruncateFile(chunk, size, plain) =>
      Next(v.(files := v.files[chunk.name := []]), StoreFile(chunk, size, plain), None)
    case StoreFile(chunk, size, plain) =>
      Next(v.(files := v.files[chunk.name := plain]), InsertFile(chunk, size, Cksum(plain)), None)
    case InsertFile(chunk, size, crc) =>
      if |chunk.name| > NAME_LEN || |PathOf(id, chunk.name)| > NAME_LEN then Fail(v)
      else
        Next(v.(rows := v.rows + [FileRow(chunk.name, PathOf(id, chunk.name), false)]), Idle,
             Some(Confirm(size, chunk.name, crc)))
    case UpdateVerified(name) => Next(v.(rows := Verify(v.rows, name)), Idle, Some(MessageACK))
  }

  /** Each operation comes closer to the end of its handler. */
  function Rank(task: Task): nat {
    match task
    case Idle | Dead => 0
    case UpdateKey(_, _) | UpdateLastSeen(_, _, _) | InsertFile(_, _, _) | UpdateVerified(_) => 1
    case RefreshKey(_, _, _) | StoreFile(_, _, _) => 2
    case SelectPublicKey(_, _) | TruncateFile(_, _, _) => 3
    case ReadFile(_, _) => 4
    case SelectKey(_) => 5
    case WriteFile(_) => 6
    case OpenFile(_) => 7
    case MakeDirectory(_) => 8
  }

  lemma StepComesCloser(c: Crypto, id: seq<bv8>, v: View, task: Task)
    ensures task.Idle? || task.Dead? || Rank(Step(c, id, v, task).task) < Rank(task)
    ensures Step(c, id, v, task).reply.Some? ==> Step(c, id, v, task).task == Idle
  {
  }

  /** The rest of a handler without interruption. */
  function Finish(c: Crypto, id: seq<bv8>, v: View, task: Task): Next
    decreases Rank(task)
  {
    StepComesCloser(c, id, v, task);
    var n := Step(c, id, v, task);
    if task.Idle? || task.Dead? || n.task.Idle? || n.task.Dead? then n else Finish(c, id, n.view, n.task)
  }

  /** A whole handler: the state after it, whether the connection lives on, and its reply, if there is one. */
  function Handle(c: Crypto, id: seq<bv8>, v: View, request: ClientRequest): Next {
    var (task, reply) := Start(request);
    if task.Idle? || task.Dead? then Next(v, task, reply) else Finish(c, id, v, task)
  }
}
