/**
 One logical lock or semaphore acquisition attempt, as the automaton that the
 client in LockClient.dfy is proved to follow and that AttemptSystem.dfy runs
 against a server.
 */
module Attempt {
  import opened Wrappers

  /** A JSON member as the client tests it: `is True`, `is False`, or truthiness. */
  datatype Flag = Absent | Yes | No | OddTruthy | OddFalsy {
    predicate Truthy() {
      Yes? || OddTruthy?
    }
  }

  /** `token` is Some only when the member is an integer that is not a boolean. */
  datatype Reply =
    | Lost
    | Output(acquired: Flag, token: Option<int>, renewed: Flag, cancelled: Flag,
             released: Flag, limitMismatch: bool, lease: Option<int>)

  datatype Request =
    | Acquire(holder: string, rid: string, wait: bool)
    | Renew(holder: string, token: int)
    | Cancel(holder: string, rid: string)
    | Release(holder: string, token: int)

  datatype Spec = Spec(holder: string, rid: string, wait: bool, semaphore: bool)

  /** How an attempt without a handle leaves its caller. */
  datatype Exit = ReturnNone | Raise

  datatype PC =
    | First
    | FirstRenew(token: int)
    | Polling
    | PollRenew(token: int)
    | Cancelling(exit: Exit)
    | Releasing(token: int, exit: Exit)
    | Got(token: int)
    | Ended(exit: Exit)
    | Unresolved

  /** What the client did: one round trip, or leaving the poll loop. */
  datatype Entry = Exchanged(request: Request, reply: Reply) | GaveUp(exit: Exit)

  /** The fencing token check: a positive integer, or the call raises. */
  function ValidToken(token: Option<int>): (r: Option<int>) {
    if token.Some? && token.value > 0 then token else None
  }

  function Pending(a: Spec, pc: PC): (r: Option<Request>) {
    match pc
    case First => Some(Acquire(a.holder, a.rid, a.wait))
    case FirstRenew(t) => Some(Renew(a.holder, t))
    case Polling => Some(Acquire(a.holder, a.rid, true))
    case PollRenew(t) => Some(Renew(a.holder, t))
    case Cancelling(_) => Some(Cancel(a.holder, a.rid))
    case Releasing(t, _) => Some(Release(a.holder, t))
    case Got(_) => None
    case Ended(_) => None
    case Unresolved => None
  }

  function Resume(a: Spec, pc: PC, reply: Reply): (r: PC)
    requires Pending(a, pc).Some?
  {
    match pc
    case First =>
      if reply.Lost? then Cancelling(Raise)
      else if reply.acquired.Truthy() then
        match ValidToken(reply.token) {
          case None => Ended(Raise)
          case Some(t) => if reply.renewed.No? then FirstRenew(t) else Got(t)
        }
      else if a.semaphore && reply.limitMismatch then Ended(Raise)
      else if !a.wait then Ended(ReturnNone)
      else Polling
    case FirstRenew(t) =>
      if reply.Lost? || !reply.renewed.Truthy() then Cancelling(Raise) else Got(t)
    case Polling =>
      if reply.Lost? then Cancelling(Raise)
      else if reply.acquired.Truthy() then
        match ValidToken(reply.token) {
          case None => Cancelling(Raise)
          case Some(t) => PollRenew(t)
        }
      else if a.semaphore && reply.limitMismatch then Cancelling(Raise)
      else Polling
    case PollRenew(t) =>
      if reply.Lost? || !reply.renewed.Truthy() then Cancelling(Raise) else Got(t)
    case Cancelling(exit) =>
      if reply.Lost? then Unresolved
      else if reply.acquired.Truthy() then
        match ValidToken(reply.token) {
          case None => Unresolved
          case Some(t) => Releasing(t, exit)
        }
      else if reply.cancelled.Yes? then Ended(exit)
      else Unresolved
    case Releasing(_, exit) =>
      if reply.Lost? || reply.released.No? then Unresolved else Ended(exit)
  }

  /** One journal entry, or None when this client would not have made it. */
  function React(a: Spec, pc: PC, e: Entry): (r: Option<PC>) {
    match e
    case GaveUp(exit) => if pc.Polling? then Some(Cancelling(exit)) else None
    case Exchanged(request, reply) =>
      if Pending(a, pc) == Some(request) then Some(Resume(a, pc, reply)) else None
  }

  /** The state after a whole journal, from the first acquire on. */
  function Replay(a: Spec, journal: seq<Entry>): (r: Option<PC>) {
    if journal == [] then Some(First)
    else
      var before := Replay(a, journal[..|journal| - 1]);
      if before.None? then None else React(a, before.value, journal[|journal| - 1])
  }

  lemma ReplayAppend(a: Spec, journal: seq<Entry>, e: Entry)
    requires Replay(a, journal).Some?
    ensures Replay(a, journal + [e]) == React(a, Replay(a, journal).value, e)
  {
    assert (journal + [e])[..|journal|] == journal;
  }

  /** Every prefix of a journal the client can produce is one too. */
  lemma {:induction false} ReplayPrefix(a: Spec, journal: seq<Entry>, n: nat)
    requires n <= |journal|
    requires Replay(a, journal).Some?
    ensures Replay(a, journal[..n]).Some?
    decreases |journal|
  {
    if n == |journal| {
      assert journal[..n] == journal;
    } else {
      ReplayPrefix(a, journal[..|journal| - 1], n);
      assert journal[..|journal| - 1][..n] == journal[..n];
    }
  }

  predicate IsAcquire(e: Entry) {
    e.Exchanged? && e.request.Acquire?
  }

  predicate IsCancel(e: Entry) {
    e.Exchanged? && e.request.Cancel?
  }

  /** The number of cancel requests in a journal. */
  function Cancels(journal: seq<Entry>): (n: nat) {
    if journal == [] then 0
    else Cancels(journal[..|journal| - 1]) + if IsCancel(journal[|journal| - 1]) then 1 else 0
  }

  /** The poll loop was entered: the first acquire was answered with "not yet". */
  predicate WaitPhase(a: Spec, journal: seq<Entry>) {
    |journal| > 0 && Replay(a, journal[..1]) == Some(Polling)
  }

  predicate AfterCancel(pc: PC) {
    pc.Releasing? || pc.Ended? || pc.Unresolved?
  }

  /** Cancel count by state, for every journal the client can produce. */
  lemma {:induction false} CancelCount(a: Spec, journal: seq<Entry>)
    requires Replay(a, journal).Some?
    ensures Cancels(journal) <= 1
    ensures !AfterCancel(Replay(a, journal).value) ==> Cancels(journal) == 0
    ensures Replay(a, journal).value.Releasing? || Replay(a, journal).value.Unresolved? ==> Cancels(journal) == 1
    ensures WaitPhase(a, journal) && AfterCancel(Replay(a, journal).value) ==> Cancels(journal) == 1
    ensures WaitPhase(a, journal) ==>
              !Replay(a, journal).value.First? && !Replay(a, journal).value.FirstRenew?
  {
    if journal != [] {
      var before := journal[..|journal| - 1];
      CancelCount(a, before);
      if |before| > 0 {
        assert before[..1] == journal[..1];
      } else {
        assert journal[..1] == journal;
      }
    }
  }

  /**
   Once the wait phase has started, a finished attempt has sent exactly one
   cancel if it holds no handle, and none if it does.
   */
  lemma WaitPhaseCancelsOnce(a: Spec, journal: seq<Entry>)
    requires Replay(a, journal).Some? && Pending(a, Replay(a, journal).value).None?
    requires WaitPhase(a, journal)
    ensures Cancels(journal) == if Replay(a, journal).value.Got? then 0 else 1
  {
    CancelCount(a, journal);
  }

  lemma {:induction false} SomeCancel(journal: seq<Entry>, i: nat)
    requires i < |journal| && IsCancel(journal[i])
    ensures Cancels(journal) >= 1
  {
    if i < |journal| - 1 {
      SomeCancel(journal[..|journal| - 1], i);
    }
  }

  /** No acquire is ever sent after a cancel. */
  lemma NoAcquireAfterCancel(a: Spec, journal: seq<Entry>, i: nat, j: nat)
    requires Replay(a, journal).Some?
    requires i < j < |journal| && IsCancel(journal[i])
    ensures !IsAcquire(journal[j])
  {
    ReplayPrefix(a, journal, j + 1);
    ReplayPrefix(a, journal, j);
    var upTo := journal[..j];
    assert journal[..j + 1][..j] == upTo;
    assert upTo[i] == journal[i];
    SomeCancel(upTo, i);
    CancelCount(a, upTo);
  }

  /** Every request names the attempt's holder; acquires and cancels its request id. */
  lemma OneIdentity(a: Spec, journal: seq<Entry>, i: nat)
    requires Replay(a, journal).Some?
    requires i < |journal| && journal[i].Exchanged?
    ensures journal[i].request.holder == a.holder
    ensures IsAcquire(journal[i]) || IsCancel(journal[i]) ==> journal[i].request.rid == a.rid
    ensures IsAcquire(journal[i]) && i > 0 ==> journal[i].request.wait
  {
    ReplayPrefix(a, journal, i + 1);
    assert journal[..i + 1][..i] == journal[..i];
    if i > 0 {
      ReplayPrefix(a, journal, i);
      LeavesFirst(a, journal[..i]);
    }
  }

  lemma {:induction false} LeavesFirst(a: Spec, journal: seq<Entry>)
    requires journal != [] && Replay(a, journal).Some?
    ensures !Replay(a, journal).value.First?
  {
    if |journal| > 1 {
      LeavesFirst(a, journal[..|journal| - 1]);
    }
  }

  /**
   A handle's token is positive, and the last thing the client heard confirms
   it: a renewal of exactly that token, or the very first acquire.
   */
  lemma {:induction false} HandleConfirmed(a: Spec, journal: seq<Entry>)
    requires Replay(a, journal).Some? && Replay(a, journal).value.Got?
    ensures var t := Replay(a, journal).value.token;
            && t > 0
            && journal != []
            && var last := journal[|journal| - 1];
            && last.Exchanged? && last.reply.Output?
            && (|| (last.request == Renew(a.holder, t) && last.reply.renewed.Truthy())
                || (|journal| == 1 && last.request == Acquire(a.holder, a.rid, a.wait)
                    && last.reply.acquired.Truthy() && last.reply.token == Some(t)
                    && !last.reply.renewed.No?))
  {
    var before := journal[..|journal| - 1];
    TokensPositive(a, before);
    if before != [] {
      LeavesFirst(a, before);
    }
  }

  lemma {:induction false} TokensPositive(a: Spec, journal: seq<Entry>)
    requires Replay(a, journal).Some?
    ensures var pc := Replay(a, journal).value;
            pc.FirstRenew? || pc.PollRenew? || pc.Releasing? || pc.Got? ==> pc.token > 0
  {
    if journal != [] {
      TokensPositive(a, journal[..|journal| - 1]);
    }
  }

  // ---- the same, from one entry to the next -------------------------------------------

  /** The client takes the member for true. */
  predicate Says(f: Flag) {
    f == Yes || f == OddTruthy
  }

  /** An acquire or cancel answered with a grant and a usable token. */
  predicate Grants(r: Reply) {
    r.Output? && Says(r.acquired) && r.token.Some? && r.token.value >= 1
  }

  predicate Refuses(r: Reply) {
    r.Output? && !Says(r.acquired)
  }

  predicate Renews(r: Reply) {
    r.Output? && Says(r.renewed)
  }

  /** What an attempt does next, or how it ends. */
  datatype Turn =
    | Asks(request: Request)
    | PollsOrLeaves
    | Holds(token: int)
    | ReturnsNone
    | RaisesNow
    | LeftUnresolved

  /** What follows the first acquire. */
  function AfterFirst(a: Spec, r: Reply): Turn {
    if Grants(r) then if r.renewed == No then Asks(Renew(a.holder, r.token.value)) else Holds(r.token.value)
    else if !Refuses(r) then if r == Lost then Asks(Cancel(a.holder, a.rid)) else RaisesNow
    else if a.semaphore && r.limitMismatch then RaisesNow
    else if a.wait then PollsOrLeaves
    else ReturnsNone
  }

  /** What follows a later acquire. */
  function AfterPoll(a: Spec, r: Reply): Turn {
    if Grants(r) then Asks(Renew(a.holder, r.token.value))
    else if Refuses(r) && !(a.semaphore && r.limitMismatch) then PollsOrLeaves
    else Asks(Cancel(a.holder, a.rid))
  }

  /** What follows a cancel or a release that was due because of `exit`. */
  function AfterCleanup(a: Spec, request: Request, r: Reply, exit: Exit): Turn {
    var done := if exit == ReturnNone then ReturnsNone else RaisesNow;
    if request.Cancel? then
      if Grants(r) then Asks(Release(a.holder, r.token.value))
      else if Refuses(r) && r.cancelled == Yes then done
      else LeftUnresolved
    else if r != Lost && r.released != No then done
    else LeftUnresolved
  }

  /** Why the journal came to clean up: it gave up quietly, or something went wrong. */
  function CauseOf(journal: seq<Entry>): Exit {
    if journal == [] then Raise
    else
      var last := journal[|journal| - 1];
      if last.GaveUp? then last.exit else CauseOf(journal[..|journal| - 1])
  }

  /** What a journal leads to, from its entries alone. */
  function TurnAfter(a: Spec, journal: seq<Entry>): Turn {
    if journal == [] then Asks(Acquire(a.holder, a.rid, a.wait))
    else
      var last := journal[|journal| - 1];
      match last
      case GaveUp(_) => Asks(Cancel(a.holder, a.rid))
      case Exchanged(request, r) =>
        if request.Acquire? then if |journal| == 1 then AfterFirst(a, r) else AfterPoll(a, r)
        else if request.Renew? then if Renews(r) then Holds(request.token) else Asks(Cancel(a.holder, a.rid))
        else AfterCleanup(a, request, r, CauseOf(journal))
  }

  /** Each entry is what the entries before it lead to. */
  predicate IsTrace(a: Spec, journal: seq<Entry>) {
    journal != [] ==>
      var before := journal[..|journal| - 1];
      IsTrace(a, before) && Takes(a, TurnAfter(a, before), journal[|journal| - 1])
  }

  predicate Takes(a: Spec, turn: Turn, e: Entry) {
    match turn
    case Asks(request) => e.Exchanged? && e.request == request
    case PollsOrLeaves => e.GaveUp? || e.request == Acquire(a.holder, a.rid, true)
    case _ => false
  }

  function TurnOf(a: Spec, pc: PC): Turn {
    match pc
    case Polling => PollsOrLeaves
    case Got(t) => Holds(t)
    case Ended(exit) => if exit.ReturnNone? then ReturnsNone else RaisesNow
    case Unresolved => LeftUnresolved
    case _ => Asks(Pending(a, pc).value)
  }

  /** What the automaton remembers beside the turn. */
  predicate Remembers(a: Spec, pc: PC, journal: seq<Entry>) {
    match pc
    case First => journal == []
    case FirstRenew(_) => journal != [] && CauseOf(journal) == Raise
    case Polling => journal != [] && CauseOf(journal) == Raise
    case PollRenew(_) => journal != [] && CauseOf(journal) == Raise
    case Cancelling(exit) => journal != [] && CauseOf(journal) == exit
    case Releasing(_, exit) => journal != [] && CauseOf(journal) == exit
    case _ => journal != []
  }

  lemma TraceStep(a: Spec, journal: seq<Entry>, e: Entry, pc: PC)
    requires TurnAfter(a, journal) == TurnOf(a, pc) && Remembers(a, pc, journal)
    ensures React(a, pc, e).Some? <==> Takes(a, TurnAfter(a, journal), e)
    ensures React(a, pc, e).Some? ==>
              && TurnAfter(a, journal + [e]) == TurnOf(a, React(a, pc, e).value)
              && Remembers(a, React(a, pc, e).value, journal + [e])
  {
    assert (journal + [e])[..|journal|] == journal;
  }

  /** The automaton makes exactly the journals in which each entry follows from those before it. */
  lemma {:induction false} ReplayIsTrace(a: Spec, journal: seq<Entry>)
    ensures Replay(a, journal).Some? <==> IsTrace(a, journal)
    ensures Replay(a, journal).Some? ==>
              TurnOf(a, Replay(a, journal).value) == TurnAfter(a, journal) && Remembers(a, Replay(a, journal).value, journal)
  {
    hide TurnAfter, Takes, TurnOf, Remembers, React;
    if journal == [] {
      EmptyTrace(a);
    } else {
      var before, last := journal[..|journal| - 1], journal[|journal| - 1];
      ReplayIsTrace(a, before);
      assert before + [last] == journal;
      if Replay(a, before).Some? {
        TraceStep(a, before, last, Replay(a, before).value);
      }
    }
  }

  /** In a trace every entry is what those before it lead to. */
  lemma {:induction false} TraceTakes(a: Spec, journal: seq<Entry>, i: nat)
    requires IsTrace(a, journal) && i < |journal|
    ensures Takes(a, TurnAfter(a, journal[..i]), journal[i])
    decreases |journal|
  {
    hide TurnAfter, Takes;
    var before := journal[..|journal| - 1];
    if i < |before| {
      TraceTakes(a, before, i);
      assert before[..i] == journal[..i];
    }
  }

  lemma EmptyTrace(a: Spec)
    ensures TurnAfter(a, []) == TurnOf(a, First) && Remembers(a, First, [])
  {
  }

  /** The last thing heard makes `t` a held token: a confirmed renewal, or the only acquire. */
  predicate Confirms(a: Spec, made: seq<Entry>, t: int) {
    made != [] &&
    var last := made[|made| - 1];
    && last.Exchanged? && last.reply.Output?
    && (|| (last.request == Renew(a.holder, t) && Says(last.reply.renewed))
        || (&& |made| == 1 && last.request == Acquire(a.holder, a.rid, a.wait)
            && Says(last.reply.acquired) && last.reply.token == Some(t) && t > 0 && last.reply.renewed != No))
  }

  /** Where an attempt stands tells what its entries lead to, and how it was confirmed. */
  lemma TraceOutcome(a: Spec, made: seq<Entry>, pc: PC)
    requires Replay(a, made) == Some(pc)
    ensures IsTrace(a, made) && TurnAfter(a, made) == TurnOf(a, pc)
    ensures forall t :: Confirms(a, made, t) ==> pc == Got(t)
    ensures pc.Got? ==> Confirms(a, made, pc.token)
  {
    hide Replay, Takes;
    ReplayIsTrace(a, made);
    if made != [] {
      TraceTakes(a, made, |made| - 1);
      FirstEntry(a, made);
    }
    LastDecides(a, made);
  }

  lemma FirstEntry(a: Spec, made: seq<Entry>)
    requires made != [] && IsTrace(a, made)
    ensures made[0].Exchanged? && made[0].request == Acquire(a.holder, a.rid, a.wait)
  {
    hide IsTrace;
    TraceTakes(a, made, 0);
    assert made[..0] == [];
  }

  lemma LastDecides(a: Spec, made: seq<Entry>)
    requires IsTrace(a, made)
    requires made != [] ==> made[0].Exchanged? && made[0].request == Acquire(a.holder, a.rid, a.wait)
    ensures forall t :: TurnAfter(a, made) == Holds(t) <==> Confirms(a, made, t)
  {
  }

  predicate Over(turn: Turn) {
    !turn.Asks? && !turn.PollsOrLeaves?
  }

  /** What a finished attempt owes to the reply to its first acquire. */
  lemma FirstReplyDecides(a: Spec, made: seq<Entry>)
    requires IsTrace(a, made) && Over(TurnAfter(a, made))
    ensures made != [] && made[0].Exchanged? && made[0].request == Acquire(a.holder, a.rid, a.wait)
    ensures var first, turn := made[0].reply, TurnAfter(a, made);
            && (Grants(first) && first.renewed != No ==> |made| == 1 && turn == Holds(first.token.value))
            && (Refuses(first) && a.semaphore && first.limitMismatch ==> |made| == 1 && turn == RaisesNow)
            && (Refuses(first) && !(a.semaphore && first.limitMismatch) && !a.wait ==> |made| == 1 && turn == ReturnsNone)
            && (Refuses(first) && !(a.semaphore && first.limitMismatch) && a.wait ==>
                  |made| >= 2 && (made[1].GaveUp? || made[1].request == Acquire(a.holder, a.rid, true)))
  {
    FirstEntry(a, made);
    hide IsTrace, AfterPoll, AfterCleanup, CauseOf;
    assert made[..1] == [made[0]];
    assert |made| == 1 ==> made == [made[0]];
    if |made| >= 2 {
      TraceTakes(a, made, 1);
    }
  }
}
