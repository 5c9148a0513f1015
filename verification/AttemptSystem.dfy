/**
 Any number of attempts, each the automaton of Attempt.dfy, run against one
 server over a network that loses and delays messages. The server is not part of
 the repository: `Serves` is the contract its clients rely on, and nothing more
 is assumed of it.
 */
module AttemptSystem {
  import opened Wrappers
  import opened Attempt

  /** On whose behalf a token was issued. */
  datatype Owner = Owner(holder: string, rid: string)

  /**
   `issued` remembers every token ever handed out, `grants` the live ones,
   `queue` the request ids waiting, and `dead` the tombstones of cancelled ones.
   */
  datatype Server = Server(issued: map<int, Owner>, grants: set<int>, queue: set<string>, dead: set<string>)

  /** Where the outstanding request of an attempt is. */
  datatype Phase = Idle | Sent | Answered(reply: Reply)

  datatype Client = Client(spec: Spec, pc: PC, phase: Phase)

  /** `stray` holds requests whose sender stopped waiting before they were served. */
  datatype Sys = Sys(clients: map<string, Client>, stray: multiset<Request>, server: Server)

  datatype Event =
    | Start(spec: Spec)
    | Send(rid: string)
    | Serve(rid: string, reply: Reply)
    | Deliver(rid: string)
    | LoseRequest(rid: string)
    | LoseReply(rid: string)
    | LeavePoll(rid: string, exit: Exit)
    | ServeStray(request: Request, reply: Reply)
    | Promote(rid: string, token: int, holder: string)
    | Expire(token: int)
    | Dequeue(rid: string)

  predicate Owns(v: Server, rid: string, t: int) {
    t in v.grants && t in v.issued && v.issued[t].rid == rid
  }

  /** `v'` is `v` with one fresh positive token granted to `owner`. */
  predicate Grants(v: Server, v': Server, t: int, owner: Owner) {
    && t > 0 && t !in v.issued
    && v' == Server(v.issued[t := owner], v.grants + {t}, v.queue - {owner.rid}, v.dead)
  }

  /**
   The server contract, request by request. Every other way the server may
   change is the Promote, Expire and Dequeue events.
   */
  ghost predicate Serves(v: Server, v': Server, request: Request, reply: Reply) {
    reply.Output? &&
    match request
    case Acquire(holder, rid, wait) =>
      if reply.acquired.Truthy() then
        // A held grant of this holder is reported again, or a fresh one is
        // made; never for a dead request id, nor a second one for a live one.
        reply.token.Some? &&
        var t := reply.token.value;
        || (v' == v && t > 0 && t in v.grants && t in v.issued && v.issued[t].holder == holder)
        || (Grants(v, v', t, Owner(holder, rid)) && rid !in v.dead && !exists u :: Owns(v, rid, u))
      else
        // A refusal without waiting and a limit mismatch enqueue nothing.
        || v' == v
        || (wait && !reply.limitMismatch && rid !in v.dead && v' == v.(queue := v.queue + {rid}))
    case Renew(_, _) =>
      v' == v
    case Cancel(_, rid) =>
      var killed := v.(queue := v.queue - {rid}, dead := v.dead + {rid});
      if reply.acquired.Truthy() then
        // A raced grant: the id is dead, and the grant is named so that it can
        // be released.
        v' == killed && reply.token.Some? && Owns(v, rid, reply.token.value)
      else if reply.cancelled.Yes? then
        v' == killed && !exists u :: Owns(v, rid, u)
      else
        // Out of tombstones, or any other answer: nothing is established.
        v' == v || v' == killed
    case Release(_, t) =>
      if reply.released.No? then v' == v else v' == v.(grants := v.grants - {t})
  }

  ghost predicate Next(s: Sys, s': Sys, e: Event) {
    match e
    case Start(spec) =>
      // Request ids are fresh for every attempt.
      spec.rid !in s.clients && s' == s.(clients := s.clients[spec.rid := Client(spec, First, Idle)])
    case Send(rid) =>
      && rid in s.clients && s.clients[rid].phase.Idle?
      && Pending(s.clients[rid].spec, s.clients[rid].pc).Some?
      && s' == s.(clients := s.clients[rid := s.clients[rid].(phase := Sent)])
    case Serve(rid, reply) =>
      && rid in s.clients && s.clients[rid].phase.Sent?
      && Pending(s.clients[rid].spec, s.clients[rid].pc).Some?
      && Serves(s.server, s'.server, Pending(s.clients[rid].spec, s.clients[rid].pc).value, reply)
      && s' == Sys(s.clients[rid := s.clients[rid].(phase := Answered(reply))], s.stray, s'.server)
    case Deliver(rid) =>
      && rid in s.clients && s.clients[rid].phase.Answered?
      && s' == s.(clients := s.clients[rid := Hears(s.clients[rid], s.clients[rid].phase.reply)])
    case LoseReply(rid) =>
      && rid in s.clients && s.clients[rid].phase.Answered?
      && s' == s.(clients := s.clients[rid := Hears(s.clients[rid], Lost)])
    case LoseRequest(rid) =>
      && rid in s.clients && s.clients[rid].phase.Sent?
      && Pending(s.clients[rid].spec, s.clients[rid].pc).Some?
      && s' == Sys(s.clients[rid := Hears(s.clients[rid], Lost)],
                   s.stray + multiset{Pending(s.clients[rid].spec, s.clients[rid].pc).value}, s.server)
    case LeavePoll(rid, exit) =>
      && rid in s.clients && s.clients[rid].phase.Idle? && s.clients[rid].pc.Polling?
      && s' == s.(clients := s.clients[rid := s.clients[rid].(pc := Cancelling(exit))])
    case ServeStray(request, reply) =>
      && request in s.stray
      && Serves(s.server, s'.server, request, reply)
      && s' == Sys(s.clients, s.stray - multiset{request}, s'.server)
    case Promote(rid, t, holder) =>
      && rid in s.server.queue && rid !in s.server.dead
      && rid in s.clients && s.clients[rid].spec.holder == holder
      && (!exists u :: Owns(s.server, rid, u))
      && Grants(s.server, s'.server, t, Owner(holder, rid))
      && s' == s.(server := s'.server)
    case Expire(t) =>
      s' == s.(server := s.server.(grants := s.server.grants - {t}))
    case Dequeue(rid) =>
      s' == s.(server := s.server.(queue := s.server.queue - {rid}))
  }

  function Hears(c: Client, reply: Reply): Client {
    if Pending(c.spec, c.pc).Some? then Client(c.spec, Resume(c.spec, c.pc, reply), Idle) else c
  }

  predicate Init(s: Sys) {
    s == Sys(map[], multiset{}, Server(map[], {}, {}, {}))
  }

  /** A run: states joined by events, from the initial state. */
  ghost predicate IsRun(run: seq<Sys>, events: seq<Event>) {
    && |run| == |events| + 1
    && Init(run[0])
    && forall i :: 0 <= i < |events| ==> Next(run[i], run[i + 1], events[i])
  }

  /** No grant and no queue entry under this request id. */
  ghost predicate Clear(v: Server, rid: string) {
    rid !in v.queue && forall t :: !Owns(v, rid, t)
  }

  /** No acquire of this request id can still reach the server. */
  ghost predicate Quiet(stray: multiset<Request>, rid: string) {
    forall r :: r in stray && r.Acquire? ==> r.rid != rid
  }

  /** What holds of one attempt in every reachable state. */
  ghost predicate AttemptInv(s: Sys, rid: string)
    requires rid in s.clients
  {
    var c, v := s.clients[rid], s.server;
    && c.spec.rid == rid
    && (!c.phase.Idle? ==> Pending(c.spec, c.pc).Some?)
    && (c.phase.Answered? ==> c.phase.reply.Output?)
    && match c.pc {
         case First =>
           && (!c.phase.Answered? ==> Clear(v, rid) && Quiet(s.stray, rid) && rid !in v.dead)
           && (c.phase.Answered? ==>
                 && Quiet(s.stray, rid)
                 && (c.phase.reply.acquired.Truthy() ==> Issued(v, c.phase.reply.token, c.spec.holder))
                 && (!c.phase.reply.acquired.Truthy() && (!c.spec.wait || c.phase.reply.limitMismatch)
                     ==> Clear(v, rid)))
         case FirstRenew(t) => Issued(v, Some(t), c.spec.holder)
         case Polling =>
           c.phase.Answered? && c.phase.reply.acquired.Truthy() ==> Issued(v, c.phase.reply.token, c.spec.holder)
         case PollRenew(t) => Issued(v, Some(t), c.spec.holder)
         case Cancelling(_) =>
           && (c.phase.Answered? && c.phase.reply.acquired.Truthy() ==>
                 && rid in v.dead && rid !in v.queue
                 && c.phase.reply.token.Some?
                 && OnlyGrant(v, rid, c.phase.reply.token.value))
           && (c.phase.Answered? && !c.phase.reply.acquired.Truthy() && c.phase.reply.cancelled.Yes? ==>
                 rid in v.dead && Clear(v, rid))
         case Releasing(t, _) =>
           && rid in v.dead && rid !in v.queue && OnlyGrant(v, rid, t)
           && (c.phase.Answered? && !c.phase.reply.released.No? ==> Clear(v, rid))
         case Got(t) => Issued(v, Some(t), c.spec.holder)
         case Ended(_) => Clear(v, rid) && (rid in v.dead || Quiet(s.stray, rid))
         case Unresolved => true
       }
  }

  /** `token` was issued by the server to `holder`, and is positive. */
  predicate Issued(v: Server, token: Option<int>, holder: string) {
    token.Some? && token.value > 0 && token.value in v.issued && v.issued[token.value].holder == holder
  }

  /** `t` was issued under `rid`, and no other live grant is. */
  ghost predicate OnlyGrant(v: Server, rid: string, t: int) {
    && t in v.issued && v.issued[t].rid == rid
    && forall u :: Owns(v, rid, u) ==> u == t
  }

  ghost predicate ServerInv(s: Sys) {
    var v := s.server;
    && v.grants <= v.issued.Keys
    && (forall t :: t in v.issued ==> t > 0 && v.issued[t].rid in s.clients)
    && (forall t, u :: t in v.grants && u in v.grants && v.issued[t].rid == v.issued[u].rid ==> t == u)
    && v.queue !! v.dead
    && v.queue <= s.clients.Keys
    && v.dead <= s.clients.Keys
  }

  ghost predicate StrayInv(s: Sys) {
    forall r :: r in s.stray ==>
      && ((r.Acquire? || r.Cancel?) ==> r.rid in s.clients)
      && (r.Cancel? ==> s.clients[r.rid].pc.Unresolved?)
      && (r.Acquire? ==> s.clients[r.rid].spec.holder == r.holder)
      && (r.Release? ==> r.token in s.server.issued && s.server.issued[r.token].rid in s.clients
                         && s.clients[s.server.issued[r.token].rid].pc.Unresolved?)
  }

  ghost predicate Inv(s: Sys) {
    && ServerInv(s)
    && StrayInv(s)
    && forall rid :: rid in s.clients ==> AttemptInv(s, rid)
  }

  /** From where attempt `rid` stands, `v'` differs from `v` only by losses. */
  ghost predicate Calm(v: Server, v': Server, rid: string) {
    && (forall t :: t in v.issued ==> t in v'.issued && v'.issued[t] == v.issued[t])
    && (rid in v'.queue ==> rid in v.queue)
    && (forall t :: Owns(v', rid, t) ==> Owns(v, rid, t))
    && (rid in v.dead <==> rid in v'.dead)
    && v.grants <= v.issued.Keys && v'.grants <= v'.issued.Keys
  }

  /** Calm events that leave an attempt alone keep its invariant. */
  lemma Frame(s: Sys, s': Sys, rid: string)
    requires rid in s.clients && rid in s'.clients && s'.clients[rid] == s.clients[rid]
    requires AttemptInv(s, rid)
    requires Calm(s.server, s'.server, rid)
    requires Quiet(s.stray, rid) ==> Quiet(s'.stray, rid)
    ensures AttemptInv(s', rid)
  {
  }

  /** Serving a request leaves every attempt alone that it does not name. */
  lemma ServesOther(v: Server, v': Server, request: Request, reply: Reply, rid: string)
    requires Serves(v, v', request, reply)
    requires v.grants <= v.issued.Keys
    requires (request.Acquire? || request.Cancel?) && request.rid == rid ==> request.Acquire? && rid in v.dead
    ensures Calm(v, v', rid)
  {
    if request.Acquire? && rid == request.rid {
      assert rid in v.dead;
    }
  }

  /** The server's own invariant survives serving a request of a known attempt. */
  lemma ServesServer(s: Sys, v': Server, request: Request, reply: Reply)
    requires ServerInv(s) && Serves(s.server, v', request, reply)
    requires request.Acquire? || request.Cancel? ==> request.rid in s.clients
    ensures ServerInv(s.(server := v'))
  {
    var v := s.server;
    if request.Acquire? && v' != v && reply.acquired.Truthy() {
      var t := reply.token.value;
      forall u | u in v'.grants && u != t
        ensures v'.issued[u].rid != request.rid
      {
        assert !Owns(v, request.rid, u);
      }
    }
  }

  lemma ServeKeepsInv(s: Sys, s': Sys, rid: string, reply: Reply)
    requires Inv(s) && Next(s, s', Serve(rid, reply))
    ensures Inv(s')
  {
    var c := s.clients[rid];
    var request := Pending(c.spec, c.pc).value;
    assert AttemptInv(s, rid);
    ServesServer(s, s'.server, request, reply);
    forall r | r in s'.clients
      ensures AttemptInv(s', r)
    {
      if r != rid {
        ServeOther(s, s', rid, reply, r);
      } else {
        ServeOwn(s, s', rid, reply);
      }
    }
  }

  lemma ServeOther(s: Sys, s': Sys, rid: string, reply: Reply, r: string)
    requires Inv(s) && Next(s, s', Serve(rid, reply)) && r in s.clients && r != rid
    ensures AttemptInv(s', r)
  {
    var c := s.clients[rid];
    assert AttemptInv(s, rid) && AttemptInv(s, r);
    ServesOther(s.server, s'.server, Pending(c.spec, c.pc).value, reply, r);
    Frame(s, s', r);
  }

  lemma ServeOwn(s: Sys, s': Sys, rid: string, reply: Reply)
    requires Inv(s) && Next(s, s', Serve(rid, reply))
    ensures AttemptInv(s', rid)
  {
    assert AttemptInv(s, rid);
    var v, v' := s.server, s'.server;
    if !s.clients[rid].pc.First? && !s.clients[rid].pc.Polling? {
      assert forall u :: Owns(v', rid, u) ==> Owns(v, rid, u);
    }
  }

  /** A client event changes one attempt and at most adds its own request to the strays. */
  lemma OneClient(s: Sys, s': Sys, rid: string, c: Client)
    requires Inv(s) && rid in s.clients
    requires s'.server == s.server && s'.clients == s.clients[rid := c]
    requires s.clients[rid].pc.Unresolved? ==> c.pc.Unresolved?
    requires StrayInv(s') && AttemptInv(s', rid)
    requires forall r :: r != rid && Quiet(s.stray, r) ==> Quiet(s'.stray, r)
    ensures Inv(s')
  {
    forall r | r in s'.clients
      ensures AttemptInv(s', r)
    {
      assert AttemptInv(s, r);
      if r != rid {
        Frame(s, s', r);
      }
    }
  }

  lemma DeliverKeepsInv(s: Sys, s': Sys, rid: string)
    requires Inv(s) && Next(s, s', Deliver(rid))
    ensures Inv(s')
  {
    assert AttemptInv(s, rid);
    OneClient(s, s', rid, s'.clients[rid]);
  }

  lemma LoseReplyKeepsInv(s: Sys, s': Sys, rid: string)
    requires Inv(s) && Next(s, s', LoseReply(rid))
    ensures Inv(s')
  {
    assert AttemptInv(s, rid);
    OneClient(s, s', rid, s'.clients[rid]);
  }

  lemma LoseRequestKeepsInv(s: Sys, s': Sys, rid: string)
    requires Inv(s) && Next(s, s', LoseRequest(rid))
    ensures Inv(s')
  {
    assert AttemptInv(s, rid);
    assert StrayInv(s');
    OneClient(s, s', rid, s'.clients[rid]);
  }

  lemma SendKeepsInv(s: Sys, s': Sys, rid: string)
    requires Inv(s) && Next(s, s', Send(rid))
    ensures Inv(s')
  {
    assert AttemptInv(s, rid);
    OneClient(s, s', rid, s'.clients[rid]);
  }

  lemma LeavePollKeepsInv(s: Sys, s': Sys, rid: string, exit: Exit)
    requires Inv(s) && Next(s, s', LeavePoll(rid, exit))
    ensures Inv(s')
  {
    assert AttemptInv(s, rid);
    OneClient(s, s', rid, s'.clients[rid]);
  }

  lemma StartKeepsInv(s: Sys, s': Sys, spec: Spec)
    requires Inv(s) && Next(s, s', Start(spec))
    ensures Inv(s')
  {
    forall r | r in s'.clients
      ensures AttemptInv(s', r)
    {
      if r != spec.rid {
        assert AttemptInv(s, r);
        Frame(s, s', r);
      }
    }
  }

  lemma ServeStrayKeepsInv(s: Sys, s': Sys, request: Request, reply: Reply)
    requires Inv(s) && Next(s, s', ServeStray(request, reply))
    ensures Inv(s')
  {
    ServesServer(s, s'.server, request, reply);
    assert s'.stray <= s.stray;
    forall r | r in s'.clients
      ensures AttemptInv(s', r)
    {
      assert AttemptInv(s, r);
      if !((request.Acquire? || request.Cancel?) && request.rid == r) || (request.Acquire? && r in s.server.dead) {
        ServesOther(s.server, s'.server, request, reply, r);
        Frame(s, s', r);
      }
    }
  }

  lemma ServerEventKeepsInv(s: Sys, s': Sys, e: Event)
    requires Inv(s) && Next(s, s', e) && (e.Promote? || e.Expire? || e.Dequeue?)
    ensures Inv(s')
  {
    assert ServerInv(s') by {
      if e.Promote? {
        forall u | u in s.server.grants
          ensures s.server.issued[u].rid != e.rid
        {
          assert !Owns(s.server, e.rid, u);
        }
      }
    }
    forall r | r in s'.clients
      ensures AttemptInv(s', r)
    {
      assert AttemptInv(s, r);
      if !(e.Promote? && e.rid == r) {
        Frame(s, s', r);
      }
    }
  }

  lemma NextKeepsInv(s: Sys, s': Sys, e: Event)
    requires Inv(s) && Next(s, s', e)
    ensures Inv(s')
  {
    match e
    case Start(spec) => StartKeepsInv(s, s', spec);
    case Send(rid) => SendKeepsInv(s, s', rid);
    case Serve(rid, reply) => ServeKeepsInv(s, s', rid, reply);
    case Deliver(rid) => DeliverKeepsInv(s, s', rid);
    case LoseRequest(rid) => LoseRequestKeepsInv(s, s', rid);
    case LoseReply(rid) => LoseReplyKeepsInv(s, s', rid);
    case LeavePoll(rid, exit) => LeavePollKeepsInv(s, s', rid, exit);
    case ServeStray(request, reply) => ServeStrayKeepsInv(s, s', request, reply);
    case Promote(_, _, _) => ServerEventKeepsInv(s, s', e);
    case Expire(_) => ServerEventKeepsInv(s, s', e);
    case Dequeue(_) => ServerEventKeepsInv(s, s', e);
  }

  lemma {:induction false} RunInv(run: seq<Sys>, events: seq<Event>, n: nat)
    requires IsRun(run, events) && n < |run|
    ensures Inv(run[n])
  {
    if n > 0 {
      RunInv(run, events, n - 1);
      NextKeepsInv(run[n - 1], run[n], events[n - 1]);
    }
  }

  /** What client `rid` makes of an event: the end of a round trip, or leaving the poll loop. */
  function Heard(s: Sys, e: Event, rid: string): (r: seq<Entry>)
    ensures |r| <= 1
  {
    if rid !in s.clients then []
    else
      var c := s.clients[rid];
      var request := Pending(c.spec, c.pc);
      match e
      case Deliver(r) =>
        if r == rid && request.Some? && c.phase.Answered? then [Exchanged(request.value, c.phase.reply)] else []
      case LoseReply(r) => if r == rid && request.Some? then [Exchanged(request.value, Lost)] else []
      case LoseRequest(r) => if r == rid && request.Some? then [Exchanged(request.value, Lost)] else []
      case LeavePoll(r, exit) => if r == rid then [GaveUp(exit)] else []
      case _ => []
  }

  /** The journal of the run's own requests and replies for one client. */
  function JournalOf(run: seq<Sys>, events: seq<Event>, rid: string, n: nat): seq<Entry>
    requires |run| == |events| + 1 && n < |run|
  {
    if n == 0 then [] else JournalOf(run, events, rid, n - 1) + Heard(run[n - 1], events[n - 1], rid)
  }

  /** An event moves a client by what it hears of it, and no otherwise. */
  lemma EventIsEntry(s: Sys, s': Sys, e: Event, rid: string)
    requires Inv(s) && Next(s, s', e) && rid in s.clients
    ensures rid in s'.clients && s'.clients[rid].spec == s.clients[rid].spec
    ensures var heard := Heard(s, e, rid);
            if heard == [] then s'.clients[rid].pc == s.clients[rid].pc
            else React(s.clients[rid].spec, s.clients[rid].pc, heard[0]) == Some(s'.clients[rid].pc)
  {
    assert AttemptInv(s, rid);
  }

  lemma Newcomer(s: Sys, s': Sys, e: Event, rid: string)
    requires Next(s, s', e) && rid !in s.clients
    ensures Heard(s, e, rid) == []
    ensures rid in s'.clients ==> s'.clients[rid].pc == First
  {
  }

  /** In every run each client is where the journal of its own requests and replies leads. */
  lemma {:induction false} ClientsFollowAutomaton(run: seq<Sys>, events: seq<Event>, rid: string, n: nat)
    requires IsRun(run, events) && n < |run|
    ensures var journal := JournalOf(run, events, rid, n);
            if rid in run[n].clients then Replay(run[n].clients[rid].spec, journal) == Some(run[n].clients[rid].pc)
            else journal == []
  {
    hide Next, Inv, Heard, React;
    if n > 0 {
      var s, s', e := run[n - 1], run[n], events[n - 1];
      var before, heard := JournalOf(run, events, rid, n - 1), Heard(s, e, rid);
      ClientsFollowAutomaton(run, events, rid, n - 1);
      RunStep(run, events, n - 1);
      if rid in s.clients {
        EventIsEntry(s, s', e, rid);
        if heard == [] {
          assert before + heard == before;
        } else {
          assert heard == [heard[0]];
          ReplayAppend(s.clients[rid].spec, before, heard[0]);
        }
      } else {
        Newcomer(s, s', e, rid);
      }
    }
  }

  /** So the discipline of one attempt holds of what every client sends and hears in every run. */
  lemma RunsKeepDiscipline(run: seq<Sys>, events: seq<Event>, rid: string, n: nat)
    requires IsRun(run, events) && n < |run| && rid in run[n].clients
    ensures var journal, c := JournalOf(run, events, rid, n), run[n].clients[rid];
            && (forall i, k :: 0 <= i < k < |journal| && IsCancel(journal[i]) ==> !IsAcquire(journal[k]))
            && (forall i :: 0 <= i < |journal| && journal[i].Exchanged? ==> journal[i].request.holder == c.spec.holder)
            && (forall i :: 0 <= i < |journal| && (IsAcquire(journal[i]) || IsCancel(journal[i])) ==>
                              journal[i].request.rid == c.spec.rid)
            && (Pending(c.spec, c.pc).None? && WaitPhase(c.spec, journal) ==>
                  Cancels(journal) == if c.pc.Got? then 0 else 1)
            && (c.pc.Got? ==> c.pc.token > 0 && journal != [] && journal[|journal| - 1].Exchanged?)
  {
    hide Replay, Pending, Cancels, WaitPhase, JournalOf;
    var journal, c := JournalOf(run, events, rid, n), run[n].clients[rid];
    ClientsFollowAutomaton(run, events, rid, n);
    forall i, k | 0 <= i < k < |journal| && IsCancel(journal[i])
      ensures !IsAcquire(journal[k])
    {
      NoAcquireAfterCancel(c.spec, journal, i, k);
    }
    forall i | 0 <= i < |journal| && journal[i].Exchanged?
      ensures journal[i].request.holder == c.spec.holder
      ensures IsAcquire(journal[i]) || IsCancel(journal[i]) ==> journal[i].request.rid == c.spec.rid
    {
      OneIdentity(c.spec, journal, i);
    }
    if Pending(c.spec, c.pc).None? && WaitPhase(c.spec, journal) {
      WaitPhaseCancelsOnce(c.spec, journal);
    }
    if c.pc.Got? {
      HandleConfirmed(c.spec, journal);
    }
  }

  lemma FinalStep(s: Sys, s': Sys, e: Event, rid: string)
    requires Inv(s) && Next(s, s', e) && rid in s.clients
    requires Pending(s.clients[rid].spec, s.clients[rid].pc).None?
    ensures rid in s'.clients && s'.clients[rid].spec == s.clients[rid].spec
    ensures s'.clients[rid].pc == s.clients[rid].pc
  {
    assert AttemptInv(s, rid);
    EventIsEntry(s, s', e, rid);
  }

  lemma RunStep(run: seq<Sys>, events: seq<Event>, n: nat)
    requires IsRun(run, events) && n < |events|
    ensures Inv(run[n]) && Next(run[n], run[n + 1], events[n])
  {
    RunInv(run, events, n);
  }

  /** A finished attempt stays finished. */
  lemma {:induction false} FinalStays(run: seq<Sys>, events: seq<Event>, rid: string, i: nat, j: nat)
    requires IsRun(run, events) && i <= j < |run|
    requires rid in run[i].clients && Pending(run[i].clients[rid].spec, run[i].clients[rid].pc).None?
    ensures rid in run[j].clients && run[j].clients[rid].pc == run[i].clients[rid].pc
    ensures run[j].clients[rid].spec == run[i].clients[rid].spec
  {
    hide Next, Inv, Pending;
    if i < j {
      FinalStays(run, events, rid, i, j - 1);
      var s, s', e := run[j - 1], run[j], events[j - 1];
      assert Inv(s) && Next(s, s', e) by {
        RunStep(run, events, j - 1);
      }
      FinalStep(s, s', e, rid);
    }
  }

  /**
   No orphan: once an attempt has ended without a handle, and the cancel it
   owed (if any) returned normally, neither a grant nor a queue entry carries
   its request id, then or in any later state, whatever is lost, delayed or
   interleaved.
   */
  lemma NoOrphan(run: seq<Sys>, events: seq<Event>, rid: string, i: nat, j: nat)
    requires IsRun(run, events) && i <= j < |run|
    requires rid in run[i].clients && run[i].clients[rid].pc.Ended?
    ensures Clear(run[j].server, rid)
  {
    FinalStays(run, events, rid, i, j);
    RunInv(run, events, j);
    assert AttemptInv(run[j], rid);
  }

  /** A handle's token was issued by the server to the attempt's holder. */
  lemma HandleWasIssued(run: seq<Sys>, events: seq<Event>, rid: string, i: nat)
    requires IsRun(run, events) && i < |run|
    requires rid in run[i].clients && run[i].clients[rid].pc.Got?
    ensures Issued(run[i].server, Some(run[i].clients[rid].pc.token), run[i].clients[rid].spec.holder)
  {
    RunInv(run, events, i);
    assert AttemptInv(run[i], rid);
  }

  /**
   Cleanup takes only what it raced with: whenever the server serves a release,
   on time or late, the token was issued under the request id of an attempt
   that is itself cleaning up, never under that of one that ended with a handle.
   */
  lemma CleanupReleasesOwnGrant(run: seq<Sys>, events: seq<Event>, i: nat, request: Request)
    requires IsRun(run, events) && i < |events| && request.Release?
    requires || (exists reply :: events[i] == ServeStray(request, reply))
             || (exists rid, reply :: events[i] == Serve(rid, reply) && rid in run[i].clients
                   && Pending(run[i].clients[rid].spec, run[i].clients[rid].pc) == Some(request))
    ensures request.token in run[i].server.issued
    ensures var owner := run[i].server.issued[request.token].rid;
            && owner in run[i].clients
            && (run[i].clients[owner].pc.Releasing? || run[i].clients[owner].pc.Unresolved?)
  {
    RunInv(run, events, i);
    assert Next(run[i], run[i + 1], events[i]);
    if events[i].Serve? {
      assert AttemptInv(run[i], events[i].rid);
    }
  }

  /**
   The cancel really has to return: an attempt whose reply and then whose cancel
   are lost has no handle, and leaves a grant behind.
   */
  lemma LostCancelLeavesOrphan() returns (run: seq<Sys>, events: seq<Event>)
    ensures IsRun(run, events)
    ensures var s := run[|events|];
            "r" in s.clients && s.clients["r"].pc.Unresolved? && Owns(s.server, "r", 1)
  {
    var spec, reply := Spec("h", "r", false, false), Output(Yes, Some(1), Absent, Absent, Absent, false, None);
    var v := Server(map[], {}, {}, {});
    var w := Server(map[1 := Owner("h", "r")], {1}, {}, {});
    hide Alone;
    var cancel := Cancel("h", "r");
    var clients := [Client(spec, First, Idle), Client(spec, First, Sent), Client(spec, First, Answered(reply)),
                    Client(spec, Cancelling(Raise), Idle), Client(spec, Cancelling(Raise), Sent),
                    Client(spec, Unresolved, Idle)];
    var s0, s1 := Sys(map[], multiset{}, v), Alone("r", clients[0], multiset{}, v);
    var s2, s3 := Alone("r", clients[1], multiset{}, v), Alone("r", clients[2], multiset{}, w);
    var s4, s5 := Alone("r", clients[3], multiset{}, w), Alone("r", clients[4], multiset{}, w);
    var s6 := Alone("r", clients[5], multiset{cancel}, w);
    run, events := [s0, s1, s2, s3, s4, s5, s6],
      [Start(spec), Send("r"), Serve("r", reply), LoseReply("r"), Send("r"), LoseRequest("r")];
    GrantIsServed(v, w, spec, reply);
    assert Owns(w, "r", 1);
    hide Serves, Owns;
    assert Next(s0, s1, events[0]);
    assert Next(s1, s2, events[1]);
    assert Next(s2, s3, events[2]);
    assert Next(s3, s4, events[3]);
    assert Next(s4, s5, events[4]);
    assert Next(s5, s6, events[5]);
    hide Next;
    forall i | 0 <= i < |events|
      ensures Next(run[i], run[i + 1], events[i])
    {
      assert i == 0 || i == 1 || i == 2 || i == 3 || i == 4 || i == 5;
    }
  }

  /** A system of one attempt. */
  ghost function Alone(rid: string, c: Client, stray: multiset<Request>, v: Server): (s: Sys)
    ensures s.clients.Keys == {rid} && s.clients[rid] == c && s.stray == stray && s.server == v
    ensures forall d :: s.clients[rid := d] == map[rid := d]
  {
    Sys(map[rid := c], stray, v)
  }

  lemma GrantIsServed(v: Server, w: Server, spec: Spec, reply: Reply)
    requires v == Server(map[], {}, {}, {})
    requires w == Server(map[1 := Owner(spec.holder, spec.rid)], {1}, {}, {})
    requires reply.Output? && reply.acquired.Yes? && reply.token == Some(1)
    ensures Serves(v, w, Acquire(spec.holder, spec.rid, spec.wait), reply)
  {
    assert forall u :: !Owns(v, spec.rid, u);
    assert v.issued[1 := Owner(spec.holder, spec.rid)] == w.issued;
    assert Grants(v, w, 1, Owner(spec.holder, spec.rid));
  }
}
