/** Handler threads of several clients over one disk and one database. */
module Isolation {
  import opened Framing
  import opened OctetValues
  import opened Options
  import opened Server

  // ---------- the shared state, and what of it is one client's ----------

  datatype Record = Record(id: Id, row: FileRow)

  datatype Global = Global(dirs: set<string>, disk: map<string, Data>, clients: map<Id, ClientRow>,
      records: seq<Record>)

  function RowsOf(records: seq<Record>, id: Id): seq<FileRow> {
    if records == [] then []
    else
      var last := records[|records| - 1];
      RowsOf(records[..|records| - 1], id) + (if last.id == id then [last.row] else [])
  }

  ghost function ViewOf(g: Global, id: Id): View {
    View(Directory(id) in g.dirs,
         imap name: string | PathOf(id, name) in g.disk :: g.disk[PathOf(id, name)],
         if id in g.clients then Some(g.clients[id]) else None,
         RowsOf(g.records, id))
  }

  // ---------- one operation on the shared state ----------

  datatype GlobalNext = GlobalNext(state: Global, task: Task, reply: Option<Reply>)

  function FailAll(g: Global): GlobalNext {
    GlobalNext(g, Idle, Some(GeneralError))
  }

  /** UPDATE clients SET PublicKey = ?, AES = ? WHERE ID = ? */
  function UpdateClientKey(clients: map<Id, ClientRow>, id: Id, publicKey: Data, key: Data): map<Id, ClientRow> {
    if id in clients then clients[id := clients[id].(publicKey := Some(publicKey), aes := Some(key))] else clients
  }

  /** UPDATE clients SET LastSeen = ? WHERE ID = ? */
  function UpdateClientLastSeen(clients: map<Id, ClientRow>, id: Id, now: nat): map<Id, ClientRow> {
    if id in clients then clients[id := clients[id].(lastSeen := now)] else clients
  }

  /** UPDATE files SET Verified = true WHERE ID = ? AND Filename = ? */
  function UpdateFileVerified(records: seq<Record>, id: Id, name: string): (after: seq<Record>)
    ensures |after| == |records|
  {
    seq(|records|, i requires 0 <= i < |records| =>
      var r := records[i];
      if r.id == id && r.row.filename == name then r.(row := r.row.(verified := true)) else r)
  }

  /**
   One file operation or SQL statement of the handler of one client, with the paths and conditions the server
   uses.
   */
  function GlobalStep(c: Crypto, g: Global, id: Id, task: Task): GlobalNext {
    match task
    case Idle => GlobalNext(g, Idle, None)
    case Dead => GlobalNext(g, Dead, None)
    case UpdateKey(publicKey, key) =>
      if id !in g.clients then FailAll(g)
      else
        GlobalNext(g.(clients := UpdateClientKey(g.clients, id, publicKey, key)), Idle,
                   Some(KeyReply(c, publicKey, key, e => PubKeyReceived(e))))
    case SelectPublicKey(key, now) =>
      (match if id in g.clients then NonEmpty(g.clients[id].publicKey) else None
       case None => GlobalNext(g, Idle, Some(ReconnectReject))
       case Some(publicKey) => GlobalNext(g, RefreshKey(publicKey, key, now), None))
    case RefreshKey(publicKey, key, now) =>
      GlobalNext(g.(clients := UpdateClientKey(g.clients, id, publicKey, key)), UpdateLastSeen(publicKey, key, now),
          None)
    case UpdateLastSeen(publicKey, key, now) =>
      GlobalNext(g.(clients := UpdateClientLastSeen(g.clients, id, now)), Idle,
                 Some(KeyReply(c, publicKey, key, e => ReconnectAccept(e))))
    case MakeDirectory(chunk) => GlobalNext(g.(dirs := g.dirs + {Directory(id)}), OpenFile(chunk), None)
    case OpenFile(chunk) =>
      var path := PathOf(id, chunk.name);
      if Directory(id) !in g.dirs || !IsFileName(chunk.name) then FailAll(g)
      else if chunk.packetNumber == 1 || path !in g.disk then
        GlobalNext(g.(disk := g.disk[path := []]), WriteFile(chunk), None)
      else GlobalNext(g, WriteFile(chunk), None)
    case WriteFile(chunk) =>
      var path := PathOf(id, chunk.name);
      if path !in g.disk then FailAll(g)
      else
        GlobalNext(g.(disk := g.disk[path := g.disk[path] + chunk.data]),
                   if chunk.packetNumber == chunk.totalPackets then SelectKey(chunk) else Idle, None)
    case SelectKey(chunk) =>
      (match if id in g.clients then NonEmpty(g.clients[id].aes) else None
       case None => FailAll(g)
       case Some(key) => GlobalNext(g, ReadFile(chunk, key), None))
    case ReadFile(chunk, key) =>
      var path := PathOf(id, chunk.name);
      if path !in g.disk then FailAll(g)
      else
        (match c.decrypt(key, g.disk[path])
         case None => FailAll(g)
         case Some(plain) => GlobalNext(g, TruncateFile(chunk, |g.disk[path]|, plain), None))
    case TruncateFile(chunk, size, plain) =>
      GlobalNext(g.(disk := g.disk[PathOf(id, chunk.name) := []]), StoreFile(chunk, size, plain), None)
    case StoreFile(chunk, size, plain) =>
      GlobalNext(g.(disk := g.disk[PathOf(id, chunk.name) := plain]), InsertFile(chunk, size, Crc.Cksum(plain)), None)
    case InsertFile(chunk, size, crc) =>
      if |chunk.name| > NAME_LEN || |PathOf(id, chunk.name)| > NAME_LEN then FailAll(g)
      else
        GlobalNext(g.(records := g.records + [Record(id, FileRow(chunk.name, PathOf(id, chunk.name), false))]), Idle,
                   Some(Confirm(size, chunk.name, crc)))
    case UpdateVerified(name) =>
      GlobalNext(g.(records := UpdateFileVerified(g.records, id, name)), Idle, Some(MessageACK))
  }

  // ---------- nothing is shared ----------

  lemma DirectoriesDiffer(a: Id, b: Id)
    ensures Directory(a) == Directory(b) ==> a == b
    ensures |Directory(a)| == 40
  {
    assert Directory(a)[8..] == BytesToHex(a) && Directory(b)[8..] == BytesToHex(b);
    if BytesToHex(a) == BytesToHex(b) {
      HexInjective(a, b);
    }
  }

  /** A path tells whose file it is, and its name. */
  lemma PathsDiffer(a: Id, s: string, b: Id, t: string)
    ensures PathOf(a, s) == PathOf(b, t) ==> a == b && s == t
  {
    hide Directory;
    DirectoriesDiffer(a, b);
    DirectoriesDiffer(b, a);
    assert PathOf(a, s)[..40] == Directory(a) && PathOf(b, t)[..40] == Directory(b);
    assert PathOf(a, s)[41..] == s && PathOf(b, t)[41..] == t;
  }

  /** Writing one file of one client changes that file in its own view, and nothing in the views of others. */
  lemma WriteIsLocal(g: Global, id: Id, name: string, data: Data)
    ensures var after := g.(disk := g.disk[PathOf(id, name) := data]);
            && ViewOf(after, id) == ViewOf(g, id).(files := ViewOf(g, id).files[name := data])
            && forall other: Id :: other != id ==> ViewOf(after, other) == ViewOf(g, other)
  {
    hide PathOf, Directory;
    forall other: Id, n: string
      ensures PathOf(other, n) == PathOf(id, name) ==> other == id && n == name
    {
      PathsDiffer(other, n, id, name);
    }
    var after := g.(disk := g.disk[PathOf(id, name) := data]);
    assert ViewOf(after, id).files == ViewOf(g, id).files[name := data];
    forall other: Id | other != id
      ensures ViewOf(after, other) == ViewOf(g, other)
    {
      assert ViewOf(after, other).files == ViewOf(g, other).files;
    }
  }

  lemma MakeDirectoryIsLocal(g: Global, id: Id)
    ensures var after := g.(dirs := g.dirs + {Directory(id)});
            && ViewOf(after, id) == ViewOf(g, id).(dir := true)
            && forall other: Id :: other != id ==> ViewOf(after, other) == ViewOf(g, other)
  {
    hide Directory, PathOf;
    forall other: Id
      ensures Directory(other) == Directory(id) ==> other == id
    {
      DirectoriesDiffer(other, id);
    }
  }

  lemma {:induction false} InsertIsLocal(records: seq<Record>, id: Id, row: FileRow, other: Id)
    ensures RowsOf(records + [Record(id, row)], other)
         == if other == id then RowsOf(records, id) + [row] else RowsOf(records, other)
  {
    assert (records + [Record(id, row)])[..|records|] == records;
  }

  lemma {:induction false} VerifyIsLocal(records: seq<Record>, id: Id, name: string, other: Id)
    ensures RowsOf(UpdateFileVerified(records, id, name), other)
         == if other == id then Verify(RowsOf(records, id), name) else RowsOf(records, other)
  {
    if records != [] {
      var init, last := records[..|records| - 1], records[|records| - 1];
      VerifyIsLocal(init, id, name, other);
      assert UpdateFileVerified(records, id, name)[..|records| - 1] == UpdateFileVerified(init, id, name);
      VerifyLast(RowsOf(init, id), last.row, name);
    }
  }

  lemma VerifyLast(rows: seq<FileRow>, row: FileRow, name: string)
    ensures Verify(rows + [row], name)
         == Verify(rows, name) + [if row.filename == name then row.(verified := true) else row]
    ensures Verify(rows + [], name) == Verify(rows, name)
  {
    assert rows + [] == rows;
  }

  /** An operation of one client's handler is an operation on its own view, and leaves all other views alone. */
  lemma StepIsLocal(c: Crypto, g: Global, id: Id, task: Task)
    ensures var n, m := GlobalStep(c, g, id, task), Step(c, id, ViewOf(g, id), task);
            && m == Next(ViewOf(n.state, id), n.task, n.reply)
            && forall other: Id :: other != id ==> ViewOf(n.state, other) == ViewOf(g, other)
  {
    hide PathOf, Directory, Verify, RowsOf, UpdateFileVerified;
    match task
    case MakeDirectory(chunk) => MakeDirectoryIsLocal(g, id);
    case OpenFile(chunk) => WriteIsLocal(g, id, chunk.name, []);
    case WriteFile(chunk) =>
      if PathOf(id, chunk.name) in g.disk {
        WriteIsLocal(g, id, chunk.name, g.disk[PathOf(id, chunk.name)] + chunk.data);
      }
    case TruncateFile(chunk, _, _) => WriteIsLocal(g, id, chunk.name, []);
    case StoreFile(chunk, _, plain) => WriteIsLocal(g, id, chunk.name, plain);
    case InsertFile(chunk, _, _) =>
      forall other: Id {
        InsertIsLocal(g.records, id, FileRow(chunk.name, PathOf(id, chunk.name), false), other);
      }
    case UpdateVerified(name) =>
      forall other: Id {
        VerifyIsLocal(g.records, id, name, other);
      }
    case _ =>
  }

  // ---------- threads ----------

  /** A connection of a registered client: requests still to be read, the handler, and the replies sent. */
  datatype Thread = Thread(pending: seq<ClientRequest>, task: Task, replies: seq<Reply>)

  function Answer(replies: seq<Reply>, reply: Option<Reply>): seq<Reply> {
    if reply.Some? then replies + [reply.value] else replies
  }

  /** Taking the next request touches neither disk nor database. */
  function Take(t: Thread): Thread
    requires t.task.Idle? && t.pending != []
  {
    var (task, reply) := Start(t.pending[0]);
    Thread(t.pending[1..], task, Answer(t.replies, reply))
  }

  predicate Resting(t: Thread) {
    t.task.Dead? || (t.task.Idle? && t.pending == [])
  }

  /** One step of a thread that is alone with the view of its client. */
  function SoloStep(c: Crypto, id: Id, v: View, t: Thread): (View, Thread) {
    if Resting(t) then (v, t)
    else if t.task.Idle? then (v, Take(t))
    else
      var n := Step(c, id, v, t.task);
      (n.view, Thread(t.pending, n.task, Answer(t.replies, n.reply)))
  }

  function Solo(c: Crypto, id: Id, v: View, t: Thread, n: nat): (View, Thread) {
    if n == 0 then (v, t)
    else
      var (w, u) := Solo(c, id, v, t, n - 1);
      SoloStep(c, id, w, u)
  }

  /** All threads, of distinct clients, and what they share. */
  datatype System = System(state: Global, threads: map<Id, Thread>)

  /** One step of the thread that the scheduler picks. */
  function SystemStep(c: Crypto, s: System, id: Id): System {
    if id !in s.threads || Resting(s.threads[id]) then s
    else
      var t := s.threads[id];
      if t.task.Idle? then s.(threads := s.threads[id := Take(t)])
      else
        var n := GlobalStep(c, s.state, id, t.task);
        System(n.state, s.threads[id := Thread(t.pending, n.task, Answer(t.replies, n.reply))])
  }

  function SystemRun(c: Crypto, s: System, schedule: seq<Id>): System {
    if schedule == [] then s
    else SystemStep(c, SystemRun(c, s, schedule[..|schedule| - 1]), schedule[|schedule| - 1])
  }

  function Turns(schedule: seq<Id>, id: Id): nat {
    if schedule == [] then 0
    else Turns(schedule[..|schedule| - 1], id) + (if schedule[|schedule| - 1] == id then 1 else 0)
  }

  lemma SystemStepIsLocal(c: Crypto, s: System, id: Id, other: Id)
    ensures var s' := SystemStep(c, s, id);
            && s'.threads.Keys == s.threads.Keys
            && (other != id ==> ViewOf(s'.state, other) == ViewOf(s.state, other)
                                && (other in s.threads ==> s'.threads[other] == s.threads[other]))
            && (id in s.threads ==>
                  (ViewOf(s'.state, id), s'.threads[id]) == SoloStep(c, id, ViewOf(s.state, id), s.threads[id]))
  {
    hide ViewOf, GlobalStep, Step;
    if id in s.threads {
      StepIsLocal(c, s.state, id, s.threads[id].task);
    }
  }

  /**
   Whatever the schedule, each client's files, rows, key and replies are those of the run in which its own
   thread takes its turns alone.
   */
  lemma {:induction false} Interleaving(c: Crypto, s: System, schedule: seq<Id>, id: Id)
    requires id in s.threads
    ensures var s' := SystemRun(c, s, schedule);
            && s'.threads.Keys == s.threads.Keys
            && (ViewOf(s'.state, id), s'.threads[id])
            == Solo(c, id, ViewOf(s.state, id), s.threads[id], Turns(schedule, id))
  {
    hide ViewOf, SystemStep, SoloStep;
    if schedule != [] {
      var before, last := schedule[..|schedule| - 1], schedule[|schedule| - 1];
      Interleaving(c, s, before, id);
      SystemStepIsLocal(c, SystemRun(c, s, before), last, id);
    }
  }

  // ---------- keys ----------

  /** The key pair of a client: what its public key encrypts, decrypt gives back. */
  datatype KeyPair = KeyPair(publicKey: Data, decrypt: Data -> Data)

  ghost predicate Fits(c: Crypto, pair: KeyPair) {
    forall key :: c.encryptKey(pair.publicKey, key).Some? ==>
      pair.decrypt(c.encryptKey(pair.publicKey, key).value) == key
  }

  /** m_aesKey after a reply that grants one. */
  function GrantedKey(pair: KeyPair, reply: Reply): Option<Data> {
    match reply
    case PubKeyReceived(e) => Some(pair.decrypt(e))
    case ReconnectAccept(e) => Some(pair.decrypt(e))
    case _ => None
  }

  predicate GrantsNone(pair: KeyPair, reply: Option<Reply>) {
    reply.Some? ==> GrantedKey(pair, reply.value).None?
  }

  /** The key of the latest reply that granted one. */
  function LatestGrant(pair: KeyPair, replies: seq<Reply>): Option<Data> {
    if replies == [] then None
    else
      var key := GrantedKey(pair, replies[|replies| - 1]);
      if key.Some? then key else LatestGrant(pair, replies[..|replies| - 1])
  }

  predicate AsksForKey(request: ClientRequest) {
    request.SendPublicKey? || request.Reconnect?
  }

  /** A client sends its own public key. */
  predicate OwnKeys(pair: KeyPair, requests: seq<ClientRequest>) {
    forall i :: 0 <= i < |requests| && requests[i].SendPublicKey? ==>
      var payload := requests[i].payload; |payload| == NAME_LEN + PUBLIC_KEY_LEN ==> payload[NAME_LEN..] == pair.publicKey
  }

  predicate KeyTask(task: Task) {
    task.UpdateKey? || task.SelectPublicKey? || task.RefreshKey? || task.UpdateLastSeen?
  }

  /** The key that a client can use after one more step: an exchange that is answered gives it a key or takes it away. */
  function KeyAfter(c: Crypto, id: Id, pair: KeyPair, v: View, t: Thread, key: Option<Data>): Option<Data> {
    if Resting(t) then key
    else if t.task.Idle? then
      if AsksForKey(t.pending[0]) && Start(t.pending[0]).1.Some? then None else key
    else
      var n := Step(c, id, v, t.task);
      if KeyTask(t.task) && n.reply.Some? then GrantedKey(pair, n.reply.value) else key
  }

  function ClientKey(c: Crypto, id: Id, pair: KeyPair, v: View, t: Thread, key: Option<Data>, n: nat): Option<Data> {
    if n == 0 then key
    else
      var (w, u) := Solo(c, id, v, t, n - 1);
      KeyAfter(c, id, pair, w, u, ClientKey(c, id, pair, v, t, key, n - 1))
  }

  /** The key of the client is the latest that was granted, and the one in its row. */
  predicate Agreed(pair: KeyPair, v: View, replies: seq<Reply>, key: Option<Data>) {
    key.Some? ==> key == LatestGrant(pair, replies) && v.row.Some? && v.row.value.aes == key
  }

  /** Between exchanges, and in the middle of one. */
  predicate KeyPhases(pair: KeyPair, v: View, t: Thread, key: Option<Data>) {
    && OwnKeys(pair, t.pending)
    && (v.row.Some? ==> v.row.value.publicKey in {None, Some(pair.publicKey)})
    && match t.task
       case UpdateKey(publicKey, _) => publicKey == pair.publicKey
       case SelectPublicKey(_, _) => true
       case RefreshKey(publicKey, _, _) => publicKey == pair.publicKey && v.row.Some?
       case UpdateLastSeen(publicKey, made, _) =>
         publicKey == pair.publicKey && v.row.Some? && v.row.value.aes == Some(made)
       case _ => Agreed(pair, v, t.replies, key)
  }

  lemma TransferStarts(pair: KeyPair, request: ClientRequest)
    requires !AsksForKey(request)
    ensures !KeyTask(Start(request).0) && GrantsNone(pair, Start(request).1)
  {
    hide GetFilePayload, UpToZero, Decode, BaseName, IsAscii;
  }

  lemma ExchangeStarts(pair: KeyPair, request: ClientRequest)
    requires AsksForKey(request) && OwnKeys(pair, [request])
    ensures var (task, reply) := Start(request);
            if reply.Some? then task.Idle? && GrantedKey(pair, reply.value).None?
            else task.SelectPublicKey? || (task.UpdateKey? && task.publicKey == pair.publicKey)
  {
    hide GetFilePayload, UpToZero, Decode, BaseName, IsAscii;
    assert [request][0] == request;
  }

  lemma TransferKeepsRow(c: Crypto, id: Id, pair: KeyPair, v: View, task: Task)
    requires !KeyTask(task)
    ensures var n := Step(c, id, v, task);
            n.view.row == v.row && !KeyTask(n.task) && GrantsNone(pair, n.reply)
  {
    hide PathOf, Verify, Crc.Cksum;
  }

  /** One operation of an exchange: what it leads to, or the key it grants. */
  lemma ExchangeStep(c: Crypto, id: Id, pair: KeyPair, v: View, t: Thread, key: Option<Data>)
    requires Fits(c, pair) && KeyPhases(pair, v, t, key) && KeyTask(t.task)
    ensures var n := Step(c, id, v, t.task);
            && (n.view.row.Some? ==> n.view.row.value.publicKey in {None, Some(pair.publicKey)})
            && if n.reply.None? then KeyTask(n.task) && KeyPhases(pair, n.view, t.(task := n.task), key)
               else
                 && n.task.Idle?
                 && (var granted := GrantedKey(pair, n.reply.value);
                     granted.Some? ==> n.view.row.Some? && n.view.row.value.aes == granted)
  {
    hide PathOf, Verify, Confirm, LatestGrant, OwnKeys;
  }

  lemma KeyPhasesStep(c: Crypto, id: Id, pair: KeyPair, v: View, t: Thread, key: Option<Data>)
    requires Fits(c, pair) && KeyPhases(pair, v, t, key)
    ensures var (w, u) := SoloStep(c, id, v, t); KeyPhases(pair, w, u, KeyAfter(c, id, pair, v, t, key))
  {
    if !Resting(t) {
      hide Start, Step, Fits;
      var (w, u) := SoloStep(c, id, v, t);
      if t.task.Idle? {
        var request := t.pending[0];
        var reply := Start(request).1;
        GrantAdded(pair, t.replies, reply);
        if AsksForKey(request) {
          ExchangeStarts(pair, request);
        } else {
          TransferStarts(pair, request);
        }
      } else {
        GrantAdded(pair, t.replies, Step(c, id, v, t.task).reply);
        if KeyTask(t.task) {
          ExchangeStep(c, id, pair, v, t, key);
        } else {
          TransferKeepsRow(c, id, pair, v, t.task);
        }
      }
    }
  }

  lemma GrantAdded(pair: KeyPair, replies: seq<Reply>, reply: Option<Reply>)
    ensures LatestGrant(pair, Answer(replies, reply))
         == if GrantsNone(pair, reply) then LatestGrant(pair, replies) else GrantedKey(pair, reply.value)
  {
  }

  /**
   Whatever exchanges a client makes, in whatever order with transfers, on this connection or an earlier one: when
   no exchange is under way, the key it was granted last is the one the database holds.
   */
  lemma {:induction false} KeyAgreement(c: Crypto, id: Id, pair: KeyPair, v: View, t: Thread, key: Option<Data>, n: nat)
    requires Fits(c, pair) && KeyPhases(pair, v, t, key)
    ensures var (w, u) := Solo(c, id, v, t, n);
            var k := ClientKey(c, id, pair, v, t, key, n);
            KeyPhases(pair, w, u, k) && (!KeyTask(u.task) ==> Agreed(pair, w, u.replies, k))
  {
    hide SoloStep, KeyAfter;
    if n > 0 {
      KeyAgreement(c, id, pair, v, t, key, n - 1);
      var (w, u) := Solo(c, id, v, t, n - 1);
      KeyPhasesStep(c, id, pair, w, u, ClientKey(c, id, pair, v, t, key, n - 1));
    }
  }

  /** The same among any other clients, under any schedule. */
  lemma KeyAgreementAmongOthers(c: Crypto, s: System, schedule: seq<Id>, id: Id, pair: KeyPair, key: Option<Data>)
    requires Fits(c, pair) && id in s.threads && KeyPhases(pair, ViewOf(s.state, id), s.threads[id], key)
    ensures var s' := SystemRun(c, s, schedule);
            var k := ClientKey(c, id, pair, ViewOf(s.state, id), s.threads[id], key, Turns(schedule, id));
            && id in s'.threads
            && (!KeyTask(s'.threads[id].task) ==> Agreed(pair, ViewOf(s'.state, id), s'.threads[id].replies, k))
  {
    hide ViewOf, SystemRun, Solo, Agreed, KeyPhases, ClientKey;
    Interleaving(c, s, schedule, id);
    KeyAgreement(c, id, pair, ViewOf(s.state, id), s.threads[id], key, Turns(schedule, id));
  }
}
