/**
 What a stable key buys behind a gateway with a replay ledger. The gateway is not
 in the repository; `Arrive` is the contract that retrying with a key relies on.
 */
module Ledger {
  import opened Retry

  /**
   A request reaching the gateway: its key ("" for none), whether it is one of the
   sends of the call considered, and what applying it would answer.
   */
  datatype Arrival = Arrival(key: string, ours: bool, answer: string)

  datatype Gateway = Gateway(recorded: map<string, string>, effects: seq<Arrival>)

  /** A keyed request takes effect unless its key is recorded; then the record is replayed. */
  function Arrive(g: Gateway, a: Arrival): (Gateway, string) {
    if a.key == "" then (g.(effects := g.effects + [a]), a.answer)
    else if a.key in g.recorded then (g, g.recorded[a.key])
    else (Gateway(g.recorded[a.key := a.answer], g.effects + [a]), a.answer)
  }

  /** Any callers' requests, in the order in which they reach the gateway. */
  function Receive(arrivals: seq<Arrival>): Gateway {
    if arrivals == [] then Gateway(map[], [])
    else Arrive(Receive(arrivals[..|arrivals| - 1]), arrivals[|arrivals| - 1]).0
  }

  /** What arrival `i` is answered. */
  function AnswerTo(arrivals: seq<Arrival>, i: nat): string
    requires i < |arrivals|
  {
    Arrive(Receive(arrivals[..i]), arrivals[i]).1
  }

  function CountKey(effects: seq<Arrival>, key: string): nat {
    if effects == [] then 0
    else CountKey(effects[..|effects| - 1], key) + if effects[|effects| - 1].key == key then 1 else 0
  }

  function CountOurs(effects: seq<Arrival>): nat {
    if effects == [] then 0
    else CountOurs(effects[..|effects| - 1]) + if effects[|effects| - 1].ours then 1 else 0
  }

  /** The call's own arrivals are sends of the loop: any of them, late, repeated or not at all. */
  ghost predicate Delivers(arrivals: seq<Arrival>, carried: seq<string>) {
    forall a :: a in arrivals && a.ours ==> a.key in carried
  }

  lemma CountStep(effects: seq<Arrival>, a: Arrival)
    ensures forall key :: CountKey(effects + [a], key) == CountKey(effects, key) + if a.key == key then 1 else 0
    ensures CountOurs(effects + [a]) == CountOurs(effects) + if a.ours then 1 else 0
  {
    assert (effects + [a])[..|effects|] == effects;
  }

  /** One effect under every key that arrived, none under any other, and every keyless arrival one. */
  lemma {:induction false} OneEffectPerKey(arrivals: seq<Arrival>, key: string)
    ensures var g := Receive(arrivals);
            && (key != "" ==> CountKey(g.effects, key) == if key in g.recorded then 1 else 0)
            && (key != "" ==> (key in g.recorded <==> CountKey(arrivals, key) > 0))
            && (key == "" ==> CountKey(g.effects, key) == CountKey(arrivals, key))
  {
    if arrivals != [] {
      var init, last := arrivals[..|arrivals| - 1], arrivals[|arrivals| - 1];
      OneEffectPerKey(init, key);
      CountStep(Receive(init).effects, last);
    }
  }

  lemma {:induction false} SomeUnderKey(arrivals: seq<Arrival>, i: nat)
    requires i < |arrivals|
    ensures CountKey(arrivals, arrivals[i].key) > 0
  {
    if i < |arrivals| - 1 {
      SomeUnderKey(arrivals[..|arrivals| - 1], i);
    }
  }

  /** Effects are arrivals, so the call's own are under its key. */
  lemma {:induction false} OursAreUnderKey(arrivals: seq<Arrival>, key: string)
    requires forall a :: a in arrivals && a.ours ==> a.key == key
    ensures CountOurs(Receive(arrivals).effects) <= CountKey(Receive(arrivals).effects, key)
  {
    if arrivals != [] {
      var init, last := arrivals[..|arrivals| - 1], arrivals[|arrivals| - 1];
      OursAreUnderKey(init, key);
      CountStep(Receive(init).effects, last);
    }
  }

  /**
   However often a keyed call is sent, delayed or duplicated, and whoever else uses
   the gateway: it has at most one effect, and there is exactly one under its key
   once any of its sends arrives.
   */
  lemma KeyedRequestHasOneEffect(carried: seq<string>, opts: Opts, arrivals: seq<Arrival>)
    requires opts.Key() != "" && Carries(carried, opts) && Delivers(arrivals, carried)
    ensures CountOurs(Receive(arrivals).effects) <= 1
    ensures CountKey(Receive(arrivals).effects, opts.Key()) <= 1
    ensures (exists a :: a in arrivals && a.ours) ==> CountKey(Receive(arrivals).effects, opts.Key()) == 1
  {
    OneEffectPerKey(arrivals, opts.Key());
    OursAreUnderKey(arrivals, opts.Key());
    forall i | 0 <= i < |arrivals| && arrivals[i].ours
      ensures CountKey(arrivals, opts.Key()) > 0
    {
      assert arrivals[i] in arrivals;
      SomeUnderKey(arrivals, i);
    }
  }

  /** A key once recorded keeps its answer. */
  lemma {:induction false} RecordStays(arrivals: seq<Arrival>, i: nat, key: string)
    requires i <= |arrivals| && key in Receive(arrivals[..i]).recorded
    ensures key in Receive(arrivals).recorded
    ensures Receive(arrivals).recorded[key] == Receive(arrivals[..i]).recorded[key]
    decreases |arrivals|
  {
    if i == |arrivals| {
      assert arrivals[..i] == arrivals;
    } else {
      var init := arrivals[..|arrivals| - 1];
      assert init[..i] == arrivals[..i];
      RecordStays(init, i, key);
    }
  }

  lemma AnswerIsRecord(arrivals: seq<Arrival>, i: nat)
    requires i < |arrivals| && arrivals[i].key != ""
    ensures var g := Receive(arrivals);
            arrivals[i].key in g.recorded && AnswerTo(arrivals, i) == g.recorded[arrivals[i].key]
  {
    var upTo := arrivals[..i + 1];
    assert upTo[..i] == arrivals[..i] && upTo[i] == arrivals[i];
    RecordStays(arrivals, i + 1, arrivals[i].key);
  }

  /** Whichever send gets its reply through, the answer is the one of that effect. */
  lemma KeyedSendsAnswerAlike(arrivals: seq<Arrival>, i: nat, j: nat)
    requires i < |arrivals| && j < |arrivals| && arrivals[i].key == arrivals[j].key != ""
    ensures AnswerTo(arrivals, i) == AnswerTo(arrivals, j)
  {
    AnswerIsRecord(arrivals, i);
    AnswerIsRecord(arrivals, j);
  }

  predicate Keyless(arrivals: seq<Arrival>) {
    forall i :: 0 <= i < |arrivals| ==> arrivals[i].key == ""
  }

  /** Without a key every arrival takes effect, so that a keyless retry could apply twice. */
  lemma {:induction false} KeylessArrivalsAllApply(arrivals: seq<Arrival>)
    requires Keyless(arrivals)
    ensures Receive(arrivals).effects == arrivals
  {
    if arrivals != [] {
      KeylessArrivalsAllApply(arrivals[..|arrivals| - 1]);
    }
  }
}
