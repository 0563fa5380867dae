/** What threads that share disk and database make of whole requests, and so of whole transfers. */
module Service {
  import opened Crc
  import opened Framing
  import opened Isolation
  import opened Options
  import opened Server
  import opened Transfer

  /** A connection after some requests: the view of its client, the replies, and whether an exception ended it. */
  datatype Served = Served(view: View, replies: seq<Reply>, dead: bool)

  /** Requests handled one after the other, each as a whole. */
  function Serve(c: Crypto, id: Id, v: View, requests: seq<ClientRequest>): Served {
    if requests == [] then Served(v, [], false)
    else ServeNext(c, id, Serve(c, id, v, requests[..|requests| - 1]), requests[|requests| - 1])
  }

  function ServeNext(c: Crypto, id: Id, s: Served, request: ClientRequest): Served {
    if s.dead then s
    else
      var n := Handle(c, id, s.view, request);
      Served(n.view, Answer(s.replies, n.reply), n.task.Dead?)
  }

  lemma ServeOne(c: Crypto, id: Id, v: View, requests: seq<ClientRequest>, request: ClientRequest)
    ensures Serve(c, id, v, requests + [request]) == ServeNext(c, id, Serve(c, id, v, requests), request)
  {
    hide ServeNext;
    assert (requests + [request])[..|requests|] == requests;
  }

  /** A thread once it has finished the request it is at. */
  function Current(c: Crypto, id: Id, v: View, t: Thread): Served {
    if t.task.Idle? || t.task.Dead? then Served(v, t.replies, t.task.Dead?)
    else
      var n := Finish(c, id, v, t.task);
      Served(n.view, Answer(t.replies, n.reply), n.task.Dead?)
  }

  lemma RepliesComeLast(c: Crypto, id: Id, v: View, task: Task, request: ClientRequest)
    ensures Step(c, id, v, task).reply.Some? ==> Step(c, id, v, task).task.Idle?
    ensures Start(request).1.Some? ==> Start(request).0.Idle?
  {
    hide PathOf, Verify, Confirm, Cksum, GetFilePayload, UpToZero, Decode, BaseName, IsAscii;
  }

  /** A single step of a thread: it takes a request, or goes on with the one it is at. */
  lemma StepServes(c: Crypto, id: Id, v: View, t: Thread)
    ensures var (w, u) := SoloStep(c, id, v, t);
            if t.task.Idle? && t.pending != [] then
              u.pending == t.pending[1..] && Current(c, id, w, u) == ServeNext(c, id, Current(c, id, v, t), t.pending[0])
            else u.pending == t.pending && Current(c, id, w, u) == Current(c, id, v, t)
  {
    if !Resting(t) {
      hide Step, Start, Finish;
      if t.task.Idle? {
        RepliesComeLast(c, id, v, Idle, t.pending[0]);
      } else {
        RepliesComeLast(c, id, v, t.task, CRCBadResend);
        FinishNext(c, id, v, t.task);
      }
    }
  }

  /** A thread alone handles its requests one after the other. */
  lemma {:induction false} SoloServes(c: Crypto, id: Id, v: View, requests: seq<ClientRequest>, n: nat)
    ensures var (w, t) := Solo(c, id, v, Thread(requests, Idle, []), n);
            && |t.pending| <= |requests| && t.pending == requests[|requests| - |t.pending|..]
            && Current(c, id, w, t) == Serve(c, id, v, requests[..|requests| - |t.pending|])
  {
    hide ServeNext, Start, Step, Finish, Handle;
    if n > 0 {
      SoloServes(c, id, v, requests, n - 1);
      var (w, t) := Solo(c, id, v, Thread(requests, Idle, []), n - 1);
      StepServes(c, id, w, t);
      hide SoloStep, Current, ServeNext, Serve;
      if t.task.Idle? && t.pending != [] {
        var k := |requests| - |t.pending|;
        ServeOne(c, id, v, requests[..k], requests[k]);
        assert requests[..k] + [requests[k]] == requests[..k + 1];
      }
    }
  }

  /** After an exception the waiting requests stay unread. */
  lemma {:induction false} DeadStays(c: Crypto, id: Id, v: View, requests: seq<ClientRequest>, k: nat)
    requires k <= |requests| && Serve(c, id, v, requests[..k]).dead
    ensures Serve(c, id, v, requests) == Serve(c, id, v, requests[..k])
  {
    hide Handle;
    if k == |requests| {
      assert requests[..k] == requests;
    } else {
      var init := requests[..|requests| - 1];
      assert init[..k] == requests[..k];
      DeadStays(c, id, v, init, k);
    }
  }

  /**
   Under any schedule among other clients' threads, the requests a thread has read so far have been, or will have
   been once the one at hand is finished, handled one after the other on its own client's view.
   */
  lemma InterleavedService(c: Crypto, s: System, schedule: seq<Id>, id: Id, requests: seq<ClientRequest>)
    requires id in s.threads && s.threads[id] == Thread(requests, Idle, [])
    ensures var s' := SystemRun(c, s, schedule);
            && id in s'.threads
            && (var t := s'.threads[id];
                && |t.pending| <= |requests|
                && Current(c, id, ViewOf(s'.state, id), t)
                == Serve(c, id, ViewOf(s.state, id), requests[..|requests| - |t.pending|]))
  {
    hide ViewOf, SystemRun, Solo, Current, Serve;
    Interleaving(c, s, schedule, id);
    SoloServes(c, id, ViewOf(s.state, id), requests, Turns(schedule, id));
  }

  // ---------- transfers among other clients ----------

  function Values(replies: seq<(nat, Reply)>): seq<Reply> {
    seq(|replies|, i requires 0 <= i < |replies| => replies[i].1)
  }

  /** The requests that the server handled in a run, as they arrived, and what it made of them. */
  ghost predicate Handled(cfg: Config, faulty: bool, v: View, w: World, got: seq<ClientRequest>) {
    && |cfg.id| == CLIENT_ID_SIZE && |got| == w.handled <= |w.sent|
    && (forall j :: 0 <= j < |got| ==> Arrives(faulty, w.sent[j], got[j]))
    && Serve(cfg.crypto, cfg.id, v, got) == Served(w.view, w.read + Values(w.replies), !w.alive)
  }

  lemma ClientHandles(cfg: Config, faulty: bool, v: View, w: World, w': World, got: seq<ClientRequest>)
    requires Handled(cfg, faulty, v, w, got) && (ClientStep(cfg, w) == Some(w') || SendRaises(w, w'))
    ensures Handled(cfg, faulty, v, w', got)
  {
    hide Arrives, Serve, PacketRequest, PacketData, Verdict, Cksum;
    if w.replies != [] && w'.replies == w.replies[1..] {
      assert Values(w.replies) == [w.replies[0].1] + Values(w.replies[1..]);
    }
  }

  lemma ServerHandles(cfg: Config, faulty: bool, v: View, w: World, got: seq<ClientRequest>, next: ClientRequest)
    requires Handled(cfg, faulty, v, w, got) && Serves(cfg, faulty, w, next)
    ensures Handled(cfg, faulty, v, ServerStep(cfg, w, next), got + [next])
  {
    hide Arrives, Serve, Handle;
    ServeOne(cfg.crypto, cfg.id, v, got, next);
    var n := Handle(cfg.crypto, cfg.id, w.view, next);
    if n.reply.Some? {
      assert Values(w.replies + [(w.handled + 1, n.reply.value)]) == Values(w.replies) + [n.reply.value];
    }
  }

  lemma {:induction false} RunHandles(cfg: Config, faulty: bool, v: View, run: seq<World>, i: nat)
      returns (got: seq<ClientRequest>)
    requires cfg.Valid() && IsRun(cfg, faulty, v, run) && i < |run|
    ensures Handled(cfg, faulty, v, run[i], got)
  {
    if i == 0 {
      got := [];
    } else {
      got := RunHandles(cfg, faulty, v, run, i - 1);
      hide Handled, ServerStep, ClientStep, Serves, SendRaises;
      var w, w' := run[i - 1], run[i];
      assert Moves(cfg, faulty, w, w');
      if ClientStep(cfg, w) == Some(w') || SendRaises(w, w') {
        ClientHandles(cfg, faulty, v, w, w', got);
      } else {
        var next :| Serves(cfg, faulty, w, next) && w' == ServerStep(cfg, w, next);
        ServerHandles(cfg, faulty, v, w, got, next);
        got := got + [next];
      }
    }
  }

  /**
   A run among other clients: threads that share disk and database with it, under any schedule, leave its client's
   files and rows as in the run once it has handled the same requests, and send the same replies. So what was shown
   of runs holds there too.
   */
  lemma RunAmongOthers(cfg: Config, faulty: bool, v: View, run: seq<World>, i: nat, s: System, schedule: seq<Id>)
      returns (got: seq<ClientRequest>)
    requires cfg.Valid() && IsRun(cfg, faulty, v, run) && i < |run|
    ensures Handled(cfg, faulty, v, run[i], got)
    ensures cfg.id in s.threads && s.threads[cfg.id] == Thread(got, Idle, []) && ViewOf(s.state, cfg.id) == v ==>
      SameAsRun(cfg, run[i], SystemRun(cfg.crypto, s, schedule))
  {
    hide Handled, SystemRun, IsRun;
    got := RunHandles(cfg, faulty, v, run, i);
    if cfg.id in s.threads && s.threads[cfg.id] == Thread(got, Idle, []) && ViewOf(s.state, cfg.id) == v {
      RestsAsRun(cfg, faulty, v, run[i], s, schedule, got);
    }
  }

  /** When the thread has no more to do, its client's files and rows and its replies are those of the run. */
  ghost predicate SameAsRun(cfg: Config, w: World, s: System) {
    && cfg.id in s.threads
    && (Resting(s.threads[cfg.id]) ==>
          ViewOf(s.state, cfg.id) == w.view && s.threads[cfg.id].replies == w.read + Values(w.replies))
  }

  lemma RestsAsRun(cfg: Config, faulty: bool, v: View, w: World, s: System, schedule: seq<Id>, got: seq<ClientRequest>)
    requires Handled(cfg, faulty, v, w, got)
    requires cfg.id in s.threads && s.threads[cfg.id] == Thread(got, Idle, []) && ViewOf(s.state, cfg.id) == v
    ensures SameAsRun(cfg, w, SystemRun(cfg.crypto, s, schedule))
  {
    hide Serve, SystemRun, ViewOf, Arrives;
    InterleavedService(cfg.crypto, s, schedule, cfg.id, got);
    var t := SystemRun(cfg.crypto, s, schedule).threads[cfg.id];
    var k := |got| - |t.pending|;
    if t.task.Dead? {
      DeadStays(cfg.crypto, cfg.id, v, got, k);
    }
    assert t.pending == [] ==> got[..k] == got;
  }

  /**
   A transfer without alterations among other clients: once all its requests are handled, the file is stored and
   verified, whatever the other threads did in between.
   */
  lemma TransferAmongOthers(cfg: Config, s: System, schedule: seq<Id>)
    requires cfg.Valid() && Acceptable(cfg) && HasKey(cfg, ViewOf(s.state, cfg.id))
    requires cfg.id in s.threads && s.threads[cfg.id] == Thread(Attempt(cfg) + [Verdict(cfg, true)], Idle, [])
    ensures var s' := SystemRun(cfg.crypto, s, schedule);
            && cfg.id in s'.threads
            && (Resting(s'.threads[cfg.id]) ==>
                  && ViewOf(s'.state, cfg.id) == FileVerified(cfg, ViewOf(s.state, cfg.id))
                  && s'.threads[cfg.id].replies
                  == [FileOK(|cfg.encrypted|, cfg.Stored(), cfg.Checksum()), MessageACK])
  {
    hide Serve, SystemRun, ViewOf, Attempt, Verdict, HasKey, Acceptable, FileVerified;
    var v := ViewOf(s.state, cfg.id);
    var requests := Attempt(cfg) + [Verdict(cfg, true)];
    InterleavedService(cfg.crypto, s, schedule, cfg.id, requests);
    ServeTransfer(cfg, v);
    var t := SystemRun(cfg.crypto, s, schedule).threads[cfg.id];
    var k := |requests| - |t.pending|;
    if t.task.Dead? {
      DeadStays(cfg.crypto, cfg.id, v, requests, k);
    }
    assert t.pending == [] ==> requests[..k] == requests;
  }

  lemma ServeTransfer(cfg: Config, v: View)
    requires cfg.Valid() && Acceptable(cfg) && HasKey(cfg, v)
    ensures Serve(cfg.crypto, cfg.id, v, Attempt(cfg) + [Verdict(cfg, true)])
         == Served(FileVerified(cfg, v), [FileOK(|cfg.encrypted|, cfg.Stored(), cfg.Checksum()), MessageACK], false)
  {
    hide Serve, Handle, Attempt, Verdict, IsAscii, Verify;
    ServePackets(cfg, v, cfg.Total());
    AllPackets(cfg);
    ServeOne(cfg.crypto, cfg.id, v, Attempt(cfg), Verdict(cfg, true));
    VerdictHandled(cfg, FileIn(cfg, v));
  }

  lemma {:induction false} ServePackets(cfg: Config, v: View, k: nat)
    requires cfg.Valid() && Acceptable(cfg) && HasKey(cfg, v) && 1 <= k <= cfg.Total()
    ensures Serve(cfg.crypto, cfg.id, v, Attempt(cfg)[..k])
         == if k < cfg.Total() then Served(PartIn(cfg, v, k), [], false)
            else Served(FileIn(cfg, v), [FileOK(|cfg.encrypted|, cfg.Stored(), cfg.Checksum())], false)
  {
    hide Serve, Handle, Attempt, PacketRequest, PacketData, IsAscii, PartIn, FileIn, PathOf, Seen, Decode;
    AttemptAt(cfg, k);
    ServeOne(cfg.crypto, cfg.id, v, Attempt(cfg)[..k - 1], PacketRequest(cfg, k, PacketData(cfg.encrypted, k)));
    CleanPacket(cfg, v, k);
    if k > 1 {
      ServePackets(cfg, v, k - 1);
    } else {
      ServeNone(cfg.crypto, cfg.id, v);
    }
  }

  lemma ServeNone(c: Crypto, id: Id, v: View)
    ensures Serve(c, id, v, []) == Served(v, [], false)
  {
  }
}
