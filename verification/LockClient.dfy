/**
 The high-level acquire loops of the lock client, written as the client runs
 them: a poll loop with a bounded back-off, and a cancel on every way out of it
 that does not carry a handle. The server is an arbitrary function, so every
 contract here holds against an adversarial one.
 */
module LockClient {
  import opened Wrappers
  import opened Attempt

  function Nanos(ms: int): int {
    ms * 1_000_000
  }

  /** What the call hands its caller: a grant, None, or an exception. */
  datatype Outcome = Handle(token: int, lease: Option<int>, ttl: int) | NoHandle | Raises

  /** 2 to the power min(n, 3). */
  function Factor(n: nat): int {
    if n == 0 then 1 else if n == 1 then 2 else if n == 2 then 4 else 8
  }

  function Min(x: int, y: int): int {
    if x <= y then x else y
  }

  datatype Paused = Expired | BadDelay | Slept

  /** The back-off before poll `n` (counting from zero), before the deadline cuts it. */
  function DelayMs(interval: int, n: nat): (r: int)
    ensures interval >= 1 ==> 1 <= r <= 2000
    ensures interval >= 0 ==> r >= 0
    ensures interval < 0 ==> r < 0
  {
    Min(interval * Factor(n), 2000)
  }

  /** The uncut delays before polls 0 to n - 1. */
  function DelaySum(interval: int, n: nat): int {
    if n == 0 then 0 else DelaySum(interval, n - 1) + DelayMs(interval, n - 1)
  }

  /**
   The poll loop after `n` polls, `elapsed` ns into it: time slept is within
   the budget, and as long as time is left every sleep was a whole delay.
   */
  predicate OnSchedule(interval: int, maxWait: int, n: nat, elapsed: int, slept: int) {
    && 0 <= slept <= elapsed
    && slept <= Nanos(Max0(maxWait))
    && (interval >= 0 && elapsed < Nanos(maxWait) ==> Nanos(DelaySum(interval, n)) <= elapsed)
    && (interval >= 0 && n >= 1 ==> DelaySum(interval, n - 1) < maxWait)
  }

  lemma LaterOnSchedule(interval: int, maxWait: int, n: nat, elapsed: int, slept: int, later: int)
    requires OnSchedule(interval, maxWait, n, elapsed, slept) && later >= elapsed
    ensures OnSchedule(interval, maxWait, n, later, slept)
  {
  }

  /** The first three delays, and the delay every later poll waits. */
  function Ramp(interval: int): int {
    Min(interval, 2000) + Min(2 * interval, 2000) + Min(4 * interval, 2000)
  }

  function Plateau(interval: int): (r: int)
    ensures interval >= 1 ==> r >= 1
  {
    Min(8 * interval, 2000)
  }

  lemma {:induction false} DelaySumClosed(interval: int, k: nat)
    ensures DelaySum(interval, k + 3) == Ramp(interval) + k * Plateau(interval)
  {
    if k == 0 {
      assert DelaySum(interval, 1) == DelayMs(interval, 0);
      assert DelaySum(interval, 2) == DelaySum(interval, 1) + DelayMs(interval, 1);
    } else {
      DelaySumClosed(interval, k - 1);
      var step := Plateau(interval);
      assert DelayMs(interval, k + 2) == step;
      assert k * step == (k - 1) * step + step;
    }
  }

  /** The number of polls that the wait budget can pay for. */
  function PollLimit(interval: int, maxWait: int): nat
    requires interval >= 1
  {
    if maxWait <= 0 then 0
    else if maxWait <= DelayMs(interval, 0) then 1
    else if maxWait <= DelayMs(interval, 0) + DelayMs(interval, 1) then 2
    else if maxWait <= Ramp(interval) then 3
    else 4 + (maxWait - Ramp(interval) - 1) / Plateau(interval)
  }

  /** It is exact: so many polls have all delays but the last one within the budget, and one more has not. */
  lemma PollBound(interval: int, maxWait: int, polls: nat)
    requires interval >= 1
    ensures polls <= PollLimit(interval, maxWait) <==> (polls >= 1 ==> DelaySum(interval, polls - 1) < maxWait)
  {
    FirstSums(interval);
    if polls >= 4 {
      DelaySumClosed(interval, polls - 4);
      assert polls - 4 + 3 == polls - 1;
      QuotientBound(maxWait - Ramp(interval) - 1, Plateau(interval), polls - 4);
    }
  }

  lemma FirstSums(interval: int)
    ensures DelaySum(interval, 0) == 0
    ensures DelaySum(interval, 1) == DelayMs(interval, 0)
    ensures DelaySum(interval, 2) == DelayMs(interval, 0) + DelayMs(interval, 1)
    ensures DelaySum(interval, 3) == Ramp(interval)
  {
  }

  lemma WithinPollLimit(interval: int, maxWait: int, polls: nat)
    requires interval >= 0 && polls >= 1 ==> DelaySum(interval, polls - 1) < maxWait
    ensures interval >= 1 ==> polls <= PollLimit(interval, maxWait)
  {
    if interval >= 1 {
      PollBound(interval, maxWait, polls);
    }
  }

  /** The default interval of 250 ms and budget of 30 s allow 18 polls and no more. */
  lemma DefaultPollBound(polls: nat)
    requires polls >= 1 ==> DelaySum(250, polls - 1) < 30000
    ensures polls <= 18
    ensures DelaySum(250, 17) < 30000
  {
    PollBound(250, 30000, polls);
    DelaySumClosed(250, 14);
  }

  function Max0(x: int): nat {
    if x < 0 then 0 else x
  }

  lemma QuotientBound(x: int, d: int, n: nat)
    requires d >= 1
    ensures n * d <= x <==> x >= 0 && n <= x / d
  {
    if n * d <= x {
      MulMonotone(0, n, d);
      if x / d < n {
        MulMonotone(x / d + 1, n, d);
        assert false;
      }
    } else if n <= x / d {
      MulMonotone(n, x / d, d);
    }
  }

  lemma MulMonotone(x: int, y: int, d: int)
    requires x <= y && d >= 0
    ensures x * d <= y * d
  {
  }

  /**
   The client with everything it can observe: the transport (`server` answers
   call number n), a monotonic clock in nanoseconds, and the journal of what it
   did. Every round trip takes at least one clock tick.
   */
  class FiduciaLockClient {
    const server: (nat, Request) -> Reply
    const latency: nat -> nat
    var calls: nat
    var time: int
    ghost var journal: seq<Entry>
    ghost var slept: int
    ghost var acquires: nat

    constructor (server: (nat, Request) -> Reply, latency: nat -> nat, start: int)
      ensures this.server == server && this.latency == latency
      ensures calls == 0 && time == start && journal == [] && slept == 0 && acquires == 0
    {
      this.server := server;
      this.latency := latency;
      calls := 0;
      time := start;
      journal := [];
      slept := 0;
      acquires := 0;
    }

    /** The journal is `base` and then what takes attempt `a` to `pc`. */
    ghost predicate At(a: Spec, base: seq<Entry>, pc: PC)
      reads this
    {
      && |base| <= |journal| && journal[..|base|] == base
      && Replay(a, journal[|base|..]) == Some(pc)
    }

    /** The attempt holds `token`, with the lease that the last reply named. */
    ghost predicate Holds(a: Spec, base: seq<Entry>, token: int, lease: Option<int>)
      reads this
    {
      && At(a, base, Got(token))
      && |base| < |journal|
      && var last := journal[|journal| - 1];
      && last.Exchanged? && last.reply.Output? && lease == last.reply.lease
    }

    /** One round trip: any reply at all, or none. */
    method Call(request: Request) returns (reply: Reply)
      modifies this
      ensures journal == old(journal) + [Exchanged(request, reply)]
      ensures time > old(time) && slept == old(slept)
      ensures reply == server(old(calls), request) && calls == old(calls) + 1
      ensures acquires == old(acquires) + if request.Acquire? then 1 else 0
    {
      reply := server(calls, request);
      time := time + 1 + latency(calls);
      calls := calls + 1;
      journal := journal + [Exchanged(request, reply)];
      acquires := acquires + if request.Acquire? then 1 else 0;
    }

    /** A round trip that attempt `a` is due to make. */
    method Step(a: Spec, ghost base: seq<Entry>, ghost pc: PC, request: Request) returns (reply: Reply)
      requires At(a, base, pc) && Pending(a, pc) == Some(request)
      modifies this
      ensures At(a, base, Resume(a, pc, reply))
      ensures journal == old(journal) + [Exchanged(request, reply)]
      ensures reply == server(old(calls), request) && calls == old(calls) + 1
      ensures time > old(time) && slept == old(slept)
      ensures acquires == old(acquires) + if request.Acquire? then 1 else 0
    {
      ghost var before := journal[|base|..];
      reply := Call(request);
      assert journal[|base|..] == before + [Exchanged(request, reply)];
      ReplayAppend(a, before, Exchanged(request, reply));
    }

    /** Sleeping takes at least as long as asked. */
    method Sleep(ns: nat)
      modifies this
      ensures time >= old(time) + ns && slept == old(slept) + ns
      ensures journal == old(journal) && calls == old(calls) && acquires == old(acquires)
    {
      time := time + ns + latency(calls);
      slept := slept + ns;
    }

    /** Cancel, and release what the cancel says it raced with; false when it raises. */
    method CancelWait(a: Spec, ghost base: seq<Entry>, ghost exit: Exit) returns (safe: bool)
      requires At(a, base, Cancelling(exit))
      modifies this
      ensures At(a, base, if safe then Ended(exit) else Unresolved)
      ensures slept == old(slept) && acquires == old(acquires) && old(journal) <= journal
      ensures var out := server(old(calls), Cancel(a.holder, a.rid));
              safe <==>
                if Attempt.Grants(out) then
                  var released := server(old(calls) + 1, Release(a.holder, out.token.value));
                  released != Lost && released.released != No
                else Refuses(out) && out.cancelled == Yes
    {
      var out := Step(a, base, Cancelling(exit), Cancel(a.holder, a.rid));
      if out.Lost? {
        return false;
      }
      if out.acquired.Truthy() {
        var token := ValidToken(out.token);
        if token.None? {
          return false;
        }
        var released := Step(a, base, Releasing(token.value, exit), Release(a.holder, token.value));
        return released.Output? && !released.released.No?;
      }
      safe := out.cancelled.Yes?;
    }

    /**
     The whole attempt, for locks and (with `a.semaphore`) for semaphores: the
     journal it adds is one the automaton of Attempt.dfy makes, and the result
     tells in which final state it ends.
     */
    method AcquireAttempt(a: Spec, ttl: int, maxWait: int, interval: int, maxRetries: Option<int>)
      returns (r: Outcome, ghost final: PC)
      modifies this
      ensures At(a, old(journal), final) && Pending(a, final).None?
      ensures r.Handle? <==> final.Got?
      ensures r.Handle? ==> Holds(a, old(journal), r.token, r.lease) && r.token == final.token && r.ttl == ttl
      ensures r.NoHandle? <==> final == Ended(ReturnNone)
      ensures slept - old(slept) <= 1_000_000 * (if maxWait < 0 then 0 else maxWait)
      ensures interval >= 1 ==> acquires - old(acquires) <= 1 + PollLimit(interval, maxWait)
      ensures maxRetries.Some? ==> acquires - old(acquires) <= 1 + (if maxRetries.value < 0 then 0 else maxRetries.value)
      ensures var made := journal[|old(journal)|..];
              && IsTrace(a, made)
              && (r.Handle? <==> exists t :: Confirms(a, made, t))
              && (r.Handle? ==> Confirms(a, made, r.token) && TurnAfter(a, made) == Turn.Holds(r.token))
              && (r.NoHandle? <==> TurnAfter(a, made) == ReturnsNone)
              && (r.Raises? <==> TurnAfter(a, made) == RaisesNow || TurnAfter(a, made) == LeftUnresolved)
      ensures var first := server(old(calls), Acquire(a.holder, a.rid, a.wait));
              var made := journal[|old(journal)|..];
              && made != [] && made[0] == Exchanged(Acquire(a.holder, a.rid, a.wait), first)
              && (Attempt.Grants(first) && first.renewed != No ==>
                    r == Handle(first.token.value, first.lease, ttl) && |made| == 1)
              && (Refuses(first) && a.semaphore && first.limitMismatch ==> r == Raises && |made| == 1)
              && (Refuses(first) && !(a.semaphore && first.limitMismatch) && !a.wait ==> r == NoHandle && |made| == 1)
              && (Refuses(first) && !(a.semaphore && first.limitMismatch) && a.wait ==>
                    |made| >= 2 && (made[1].GaveUp? || made[1].request == Acquire(a.holder, a.rid, true)))
    {
      r, final := RunAttempt(a, ttl, maxWait, interval, maxRetries);
      ghost var made := journal[|old(journal)|..];
      TraceOutcome(a, made, final);
      FirstReplyDecides(a, made);
    }

    /** The attempt, as a journal of the automaton. */
    method RunAttempt(a: Spec, ttl: int, maxWait: int, interval: int, maxRetries: Option<int>)
      returns (r: Outcome, ghost final: PC)
      modifies this
      ensures At(a, old(journal), final) && Pending(a, final).None?
      ensures r.Handle? <==> final.Got?
      ensures r.Handle? ==> Holds(a, old(journal), r.token, r.lease) && r.token == final.token && r.ttl == ttl
      ensures r.NoHandle? <==> final == Ended(ReturnNone)
      ensures slept - old(slept) <= 1_000_000 * (if maxWait < 0 then 0 else maxWait)
      ensures interval >= 1 ==> acquires - old(acquires) <= 1 + PollLimit(interval, maxWait)
      ensures maxRetries.Some? ==> acquires - old(acquires) <= 1 + (if maxRetries.value < 0 then 0 else maxRetries.value)
      ensures |old(journal)| < |journal|
      ensures var acquire := Acquire(a.holder, a.rid, a.wait);
              journal[|old(journal)|] == Exchanged(acquire, server(old(calls), acquire))
    {
      ghost var base := journal;
      assert At(a, base, First) by {
        assert journal[|base|..] == [];
      }
      hide Replay;
      var out := Step(a, base, First, Acquire(a.holder, a.rid, a.wait));
      if out.Lost? {
        r, final := Withdraw(a, base, Raise);
        return;
      }
      if out.acquired.Truthy() {
        var token := ValidToken(out.token);
        if token.None? {
          return Raises, Ended(Raise);
        }
        if out.renewed.No? {
          var renewed := Step(a, base, FirstRenew(token.value), Renew(a.holder, token.value));
          if renewed.Lost? || !renewed.renewed.Truthy() {
            r, final := Withdraw(a, base, Raise);
            return;
          }
          return Handle(token.value, renewed.lease, ttl), Got(token.value);
        }
        return Handle(token.value, out.lease, ttl), Got(token.value);
      }
      if a.semaphore && out.limitMismatch {
        return Raises, Ended(Raise);
      }
      if !a.wait {
        return NoHandle, Ended(ReturnNone);
      }
      var got, lease, exit := Poll(a, base, maxWait, interval, maxRetries);
      if got.Some? {
        return Handle(got.value, lease, ttl), Got(got.value);
      }
      r, final := Withdraw(a, base, exit);
    }

    /** The end of an attempt that may have left something at the server. */
    method Withdraw(a: Spec, ghost base: seq<Entry>, exit: Exit) returns (r: Outcome, ghost final: PC)
      requires At(a, base, Cancelling(exit))
      modifies this
      ensures At(a, base, final) && (final == Ended(exit) || final == Unresolved)
      ensures r == if final == Ended(ReturnNone) then NoHandle else Raises
      ensures slept == old(slept) && acquires == old(acquires) && old(journal) <= journal
    {
      var safe := CancelWait(a, base, exit);
      r := if safe && exit.ReturnNone? then NoHandle else Raises;
      final := if safe then Ended(exit) else Unresolved;
    }

    /**
     The guarded block: poll until the deadline, the retry budget or an
     exception. Sleeping stays within the budget, and the uncut delays before
     the last poll sum to less than it.
     */
    method Poll(a: Spec, ghost base: seq<Entry>, maxWait: int, interval: int, maxRetries: Option<int>)
      returns (got: Option<int>, lease: Option<int>, exit: Exit)
      requires At(a, base, Polling)
      modifies this
      ensures got.Some? ==> Holds(a, base, got.value, lease)
      ensures got.None? ==> At(a, base, Cancelling(exit))
      ensures got.None? && exit.ReturnNone? ==>
                || time >= old(time) + 1_000_000 * maxWait
                || (maxRetries.Some? && acquires - old(acquires) >= maxRetries.value)
      ensures got.None? && exit.Raise? && interval >= 0 ==>
                |journal| > |old(journal)| && journal[|journal| - 1].Exchanged?
      ensures slept - old(slept) <= 1_000_000 * (if maxWait < 0 then 0 else maxWait)
      ensures old(journal) <= journal && IsTrace(a, journal[|base|..])
      ensures TurnAfter(a, journal[|base|..]) == if got.Some? then Turn.Holds(got.value) else Asks(Cancel(a.holder, a.rid))
      ensures var polls := acquires - old(acquires);
              && polls >= 0
              && (maxRetries.Some? ==> polls <= if maxRetries.value < 0 then 0 else maxRetries.value)
              && (interval >= 0 && polls >= 1 ==> DelaySum(interval, polls - 1) < maxWait)
              && (interval >= 1 ==> polls <= PollLimit(interval, maxWait))
    {
      got, lease, exit := PollLoop(a, base, maxWait, interval, maxRetries);
      TraceOutcome(a, journal[|base|..], if got.Some? then Got(got.value) else Cancelling(exit));
    }

    /** The loop, as entries of the automaton. */
    method PollLoop(a: Spec, ghost base: seq<Entry>, maxWait: int, interval: int, maxRetries: Option<int>)
      returns (got: Option<int>, lease: Option<int>, exit: Exit)
      requires At(a, base, Polling)
      modifies this
      ensures got.Some? ==> Holds(a, base, got.value, lease)
      ensures got.None? ==> At(a, base, Cancelling(exit))
      ensures got.None? && exit.ReturnNone? ==>
                || time >= old(time) + 1_000_000 * maxWait
                || (maxRetries.Some? && acquires - old(acquires) >= maxRetries.value)
      ensures got.None? && exit.Raise? && interval >= 0 ==>
                |journal| > |old(journal)| && journal[|journal| - 1].Exchanged?
      ensures slept - old(slept) <= 1_000_000 * (if maxWait < 0 then 0 else maxWait)
      ensures old(journal) <= journal
      ensures var polls := acquires - old(acquires);
              && polls >= 0
              && (maxRetries.Some? ==> polls <= if maxRetries.value < 0 then 0 else maxRetries.value)
              && (interval >= 0 && polls >= 1 ==> DelaySum(interval, polls - 1) < maxWait)
              && (interval >= 1 ==> polls <= PollLimit(interval, maxWait))
    {
      hide Replay, Holds;
      var start := time;
      var attempts := 0;
      var again, pause := true, Slept;
      lease := None;
      while maxRetries.None? || attempts < maxRetries.value
        invariant old(journal) <= journal && At(a, base, Polling)
        invariant attempts >= 0 && acquires == old(acquires) + attempts
        invariant maxRetries.Some? ==> attempts <= Max0(maxRetries.value)
        invariant pause.Slept?
        invariant OnSchedule(interval, maxWait, attempts, time - start, slept - old(slept))
        decreases start + Nanos(maxWait) - time
      {
        pause := Pause(start, maxWait, interval, attempts, old(slept));
        if !pause.Slept? {
          break;
        }
        ghost var elapsed := time - start;
        got, lease, again := PollOnce(a, base);
        attempts := attempts + 1;
        LaterOnSchedule(interval, maxWait, attempts, elapsed, slept - old(slept), time - start);
        if !again {
          exit := Raise;
          WithinPollLimit(interval, maxWait, attempts);
          return;
        }
      }
      exit := if pause.BadDelay? then Raise else ReturnNone;
      Leave(a, base, exit);
      got := None;
      WithinPollLimit(interval, maxWait, attempts);
    }

    /** Sleep the back-off before the next poll, cut at the deadline. */
    method Pause(start: int, maxWait: int, interval: int, attempts: nat, ghost slept0: int) returns (p: Paused)
      requires OnSchedule(interval, maxWait, attempts, time - start, slept - slept0)
      modifies this
      ensures journal == old(journal) && calls == old(calls) && acquires == old(acquires) && time >= old(time)
      ensures p.Expired? <==> old(time) >= start + 1_000_000 * maxWait
      ensures p.BadDelay? <==> old(time) < start + 1_000_000 * maxWait && interval < 0
      ensures !p.Slept? ==> time == old(time) && slept == old(slept)
      ensures p.Slept? ==>
                slept - old(slept) == Min(1_000_000 * DelayMs(interval, attempts),
                                          start + 1_000_000 * maxWait - old(time))
      ensures p.Slept? ==> OnSchedule(interval, maxWait, attempts + 1, time - start, slept - slept0)
    {
      var remaining := start + Nanos(maxWait) - time;
      if remaining <= 0 {
        return Expired;
      }
      var delay := Min(Nanos(DelayMs(interval, attempts)), remaining);
      if delay < 0 {
        return BadDelay;
      }
      Sleep(delay);
      p := Slept;
    }

    /** One more acquire, and the renewal of what it discovers. */
    method PollOnce(a: Spec, ghost base: seq<Entry>) returns (got: Option<int>, lease: Option<int>, again: bool)
      requires At(a, base, Polling)
      modifies this
      ensures old(journal) < journal && time > old(time) && slept == old(slept)
      ensures acquires == old(acquires) + 1
      ensures again ==> got.None? && At(a, base, Polling)
      ensures !again && got.None? ==> At(a, base, Cancelling(Raise)) && journal[|journal| - 1].Exchanged?
      ensures got.Some? ==> Holds(a, base, got.value, lease)
      ensures var found := server(old(calls), Acquire(a.holder, a.rid, true));
              && (again <==> Refuses(found) && !(a.semaphore && found.limitMismatch))
              && (if Attempt.Grants(found) then
                    var renewal := server(old(calls) + 1, Renew(a.holder, found.token.value));
                    calls == old(calls) + 2
                    && if Renews(renewal) then got == found.token && lease == renewal.lease else got.None?
                  else calls == old(calls) + 1 && got.None?)
    {
      got, lease, again := None, None, false;
      var out := Step(a, base, Polling, Acquire(a.holder, a.rid, true));
      if out.Lost? {
        return;
      }
      if out.acquired.Truthy() {
        var token := ValidToken(out.token);
        if token.None? {
          return;
        }
        var renewed := Step(a, base, PollRenew(token.value), Renew(a.holder, token.value));
        if renewed.Lost? || !renewed.renewed.Truthy() {
          return;
        }
        got, lease := token, renewed.lease;
        return;
      }
      again := !(a.semaphore && out.limitMismatch);
    }

    /** Leaving the loop is an entry of the journal, and nothing else. */
    ghost method Leave(a: Spec, base: seq<Entry>, exit: Exit)
      requires At(a, base, Polling)
      modifies this`journal
      ensures At(a, base, Cancelling(exit))
      ensures journal == old(journal) + [GaveUp(exit)]
    {
      ghost var before := journal[|base|..];
      journal := journal + [GaveUp(exit)];
      assert journal[|base|..] == before + [GaveUp(exit)];
      ReplayAppend(a, before, GaveUp(exit));
    }
  }

  /** A held grant; renewing replaces the lease only when the server confirms it. */
  class Lock {
    const client: FiduciaLockClient
    const holder: string
    const token: int
    var lease: Option<int>
    var ttl: int

    constructor (client: FiduciaLockClient, holder: string, token: int, lease: Option<int>, ttl: int)
      ensures this.client == client && this.holder == holder && this.token == token
      ensures this.lease == lease && this.ttl == ttl
    {
      this.client := client;
      this.holder := holder;
      this.token := token;
      this.lease := lease;
      this.ttl := ttl;
    }

    /** `newTtl` of None or 0 keeps the current one. */
    method RenewLease(newTtl: Option<int>) returns (confirmed: bool)
      modifies this, client
      ensures var reply := client.server(old(client.calls), Renew(holder, token));
              && client.journal == old(client.journal) + [Exchanged(Renew(holder, token), reply)]
              && confirmed == (reply.Output? && reply.renewed.Truthy())
              && lease == (if confirmed then reply.lease else old(lease))
              && ttl == (if confirmed && newTtl.GetOr(0) != 0 then newTtl.value else old(ttl))
    {
      var out := client.Call(Renew(holder, token));
      if out.Lost? || !out.renewed.Truthy() {
        return false;
      }
      lease := out.lease;
      ttl := if newTtl.Some? && newTtl.value != 0 then newTtl.value else ttl;
      confirmed := true;
    }
  }
}
