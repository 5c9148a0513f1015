/**
 The request retry loop: which failures are retried, how often a request is
 sent, and how often the server can have applied it.
 */
module Retry {
  datatype Method = GET | HEAD | OPTIONS | PUT | DELETE | POST

  /** A JSON member of an error body. */
  datatype Member = Missing | Text(text: string) | OtherValue

  /** The `error` member: plain, or an object with its own code, reason and mark. */
  datatype ErrorMember = Plain(member: Member) | Nested(code: Member, reason: Member, retryableTrue: bool)

  /** An error body; anything that is not a JSON object reads as an empty one. */
  datatype Body = Body(error: ErrorMember, retryableTrue: bool)

  datatype Failure = Status(code: int, body: Body) | TimedOut | Transport | OtherFailure

  /** What one send comes to, and whether the server applied it. */
  datatype Outcome = Success(value: string, applied: bool) | Failed(failure: Failure, applied: bool)

  datatype Response = Returned(value: string) | RaisedLast(failure: Failure) | NothingSent

  predicate Idempotent(m: Method) {
    m != POST
  }

  /** An explicit rejection by a node that is not the leader, marked as retryable. */
  predicate MarkedNotLeader(f: Failure) {
    f.Status? && f.code == 503 &&
    match f.body.error
    case Plain(member) => member == Text("not_leader") && f.body.retryableTrue
    case Nested(code, reason, retryable) =>
      (if code.Missing? then reason else code) == Text("not_leader") && retryable
  }

  predicate RetryableStatus(code: int) {
    code in {408, 425, 429, 500, 502, 503, 504}
  }

  predicate Retryable(f: Failure, replaySafe: bool) {
    MarkedNotLeader(f)
    || (replaySafe && match f
        case Status(code, _) => RetryableStatus(code)
        case TimedOut => true
        case Transport => true
        case OtherFailure => false)
  }

  /**
   The one reply that is retried without a key: status 503 whose error is
   `not_leader`, plain or by its code (its reason when it has no code), marked
   `retryable: true` beside it.
   */
  lemma RejectionIs(f: Failure)
    ensures MarkedNotLeader(f) <==>
              && f.Status? && f.code == 503
              && var e := f.body.error;
              || (e.Plain? && e.member == Text("not_leader") && f.body.retryableTrue)
              || (e.Nested? && e.retryableTrue
                  && (e.code == Text("not_leader") || (e.code == Missing && e.reason == Text("not_leader"))))
  {
  }

  /** With a key, or an idempotent method, timeouts, transport failures and seven statuses are retried too. */
  lemma RetriedExactly(f: Failure, replaySafe: bool)
    ensures Retryable(f, replaySafe) <==>
              MarkedNotLeader(f)
              || (replaySafe
                  && (f == TimedOut || f == Transport
                      || (f.Status? && (f.code == 408 || f.code == 425 || f.code == 429 || f.code == 500
                                        || f.code == 502 || f.code == 503 || f.code == 504))))
  {
  }

  lemma IdempotentMethods()
    ensures Idempotent(GET) && Idempotent(HEAD) && Idempotent(OPTIONS) && Idempotent(PUT) && Idempotent(DELETE)
    ensures !Idempotent(POST)
  {
  }

  /** The server contract the keyless exception rests on: such a reply means "not applied". */
  ghost predicate Honest(server: nat -> Outcome) {
    forall i :: server(i).Failed? && MarkedNotLeader(server(i).failure) ==> !server(i).applied
  }

  predicate GoesOn(o: Outcome, replaySafe: bool) {
    o.Failed? && Retryable(o.failure, replaySafe)
  }

  /** `sends` is exactly how often the loop sends when send number i comes to `server(i)`. */
  ghost predicate Sends(server: nat -> Outcome, replaySafe: bool, maxRetries: int, sends: nat) {
    && sends <= Max(maxRetries + 1, 0)
    && (maxRetries >= 0 ==> sends >= 1)
    && (forall i :: 0 <= i < sends - 1 ==> GoesOn(server(i), replaySafe))
    && (sends >= 1 ==> sends == maxRetries + 1 || !GoesOn(server(sends - 1), replaySafe))
  }

  /** `Sends` leaves no choice: exchanging m and n gives equality. */
  lemma SendsIsDetermined(server: nat -> Outcome, replaySafe: bool, maxRetries: int, m: nat, n: nat)
    requires Sends(server, replaySafe, maxRetries, m) && Sends(server, replaySafe, maxRetries, n)
    ensures n <= m
  {
    if m >= 1 {
      var last := m - 1;
      assert GoesOn(server(last), replaySafe) || !GoesOn(server(last), replaySafe);
    }
  }

  function Max(x: int, y: int): int {
    if x < y then y else x
  }

  /** How many of the first `n` sends were applied. */
  ghost function Applied(server: nat -> Outcome, n: nat): nat {
    if n == 0 then 0 else Applied(server, n - 1) + if server(n - 1).applied then 1 else 0
  }

  /** The two spellings of the key option; an empty text counts as none. */
  datatype Opts = Opts(idempotency_key: string, idempotencyKey: string) {
    function Key(): string {
      if idempotency_key != "" then idempotency_key else idempotencyKey
    }
  }

  /** The first spelling wins unless it is empty. */
  lemma KeyIs(opts: Opts)
    ensures opts.idempotency_key != "" ==> opts.Key() == opts.idempotency_key
    ensures opts.idempotency_key == "" ==> opts.Key() == opts.idempotencyKey
  {
  }

  /** Every send carries the header that the caller's options name, or none. */
  predicate Carries(carried: seq<string>, opts: Opts) {
    forall i :: 0 <= i < |carried| ==> carried[i] == opts.Key()
  }

  /** The loop; `result` is what the last send came to, `carried` the key header of every send. */
  method Request(server: nat -> Outcome, m: Method, opts: Opts, maxRetries: int)
    returns (result: Response, sends: nat, carried: seq<string>)
    ensures Sends(server, Idempotent(m) || opts.Key() != "", maxRetries, sends)
    ensures |carried| == sends && Carries(carried, opts)
    ensures sends == 0 <==> result.NothingSent?
    ensures sends >= 1 ==>
              result == match server(sends - 1)
              case Success(v, _) => Returned(v)
              case Failed(f, _) => RaisedLast(f)
  {
    var replaySafe := Idempotent(m) || opts.Key() != "";
    sends, carried := 0, [];
    while sends < maxRetries + 1
      invariant sends <= Max(maxRetries + 1, 0)
      invariant forall i :: 0 <= i < sends ==> GoesOn(server(i), replaySafe)
      invariant |carried| == sends && Carries(carried, opts)
      invariant maxRetries >= 0 ==> sends <= maxRetries
      decreases maxRetries + 1 - sends
    {
      var attempt := sends;
      var o := server(attempt);
      sends, carried := sends + 1, carried + [opts.Key()];
      match o {
        case Success(v, _) =>
          return Returned(v), sends, carried;
        case Failed(f, _) =>
          if attempt >= maxRetries || !Retryable(f, replaySafe) {
            return RaisedLast(f), sends, carried;
          }
      }
    }
    result := NothingSent;
  }

  lemma {:induction false} RejectedSendsDoNothing(server: nat -> Outcome, n: nat)
    requires Honest(server)
    requires forall i :: 0 <= i < n ==> GoesOn(server(i), false)
    ensures Applied(server, n) == 0
  {
    if n > 0 {
      RejectedSendsDoNothing(server, n - 1);
      assert GoesOn(server(n - 1), false);
    }
  }

  /**
   A POST without a key is applied at most once, whatever the server answers
   and however often it is sent; and only the last send can be the one.
   */
  lemma KeylessPostAppliedAtMostOnce(server: nat -> Outcome, maxRetries: int, sends: nat)
    requires Honest(server)
    requires Sends(server, Idempotent(POST), maxRetries, sends)
    ensures Applied(server, sends) <= 1
    ensures Applied(server, sends) == 1 <==> sends >= 1 && server(sends - 1).applied
  {
    if sends >= 1 {
      RejectedSendsDoNothing(server, sends - 1);
    }
  }

  /** Retrying what may have been applied needs a key: the loop would apply it twice. */
  lemma UnmarkedRetryCouldApplyTwice(v: string)
    returns (server: nat -> Outcome)
    ensures Honest(server)
    ensures Sends(server, true, 1, 2) && Applied(server, 2) == 2
  {
    server := (i: nat) => if i == 0 then Failed(TimedOut, true) else Success(v, true);
    assert Applied(server, 1) == 1;
  }
}
