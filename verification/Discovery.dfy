/**
 The fail-closed reducer of the service watch: hints advance the observed
 revision and mark the replica stale, authoritative snapshots replace it.
 Payloads are arbitrary JavaScript values.
 */
module Discovery {
  import opened Wrappers

  datatype Js =
    | Undefined
    | Null
    | Bool(b: bool)
    | Number(n: real)
    | NotFinite
    | String(s: string)
    | Array(items: seq<Js>)
    | Object(members: map<string, Js>)

  datatype Instance = Instance(instanceId: string, address: string, leaseExpiresMs: int, metadata: map<string, string>)

  datatype Envelope = Envelope(event: Option<string>, id: Option<string>, data: Js)

  datatype Replica = Replica(
    service: string,
    instances: seq<Instance>,
    synchronized: bool,
    needsResync: bool,
    lastObserved: Option<int>,
    lastSnapshot: Option<int>)

  datatype Kind = SnapshotApplied | HintApplied | Ignored | ResyncRequired

  datatype Applied = Applied(kind: Kind, state: Replica)

  /**
   What the runtime supplies: the number a non-number converts to (None for
   NaN and the infinities), and the collation order of ids as a total preorder.
   */
  datatype Runtime = Runtime(toNumber: Js -> Option<real>, before: (string, string) -> bool)

  ghost predicate Collates(rt: Runtime) {
    && (forall x, y :: rt.before(x, y) || rt.before(y, x))
    && (forall x, y, z :: rt.before(x, y) && rt.before(y, z) ==> rt.before(x, z))
  }

  const MAX_SAFE := 9007199254740991

  predicate SafeInteger(r: real) {
    r == r.Floor as real && -MAX_SAFE <= r.Floor <= MAX_SAFE
  }

  // ---- revisions --------------------------------------------------------------

  datatype Revision = NoRevision | Invalid | Rev(value: int)

  function ParseOptionalRevision(rt: Runtime, v: Js): (r: Revision)
    ensures r.Rev? ==> r.value > 0
  {
    if v.Undefined? || v.Null? || v == String("") then NoRevision
    else
      var parsed := if v.Number? then Some(v.n) else if v.NotFinite? then None else rt.toNumber(v);
      if parsed.None? || !SafeInteger(parsed.value) || parsed.value <= 0.0 then Invalid
      else Rev(parsed.value.Floor)
  }

  function IdRevision(rt: Runtime, e: Envelope): Revision {
    ParseOptionalRevision(rt, if e.id.None? then Undefined else String(e.id.value))
  }

  /** Two sources of one revision: None when either is invalid or they differ. */
  function Agreed(x: Revision, y: Revision): Option<Revision> {
    if x.Invalid? || y.Invalid? then None
    else if x.Rev? && y.Rev? && x != y then None
    else Some(if x.Rev? then x else y)
  }

  function MaxDefined(x: Option<int>, y: Revision): Option<int> {
    match y
    case Rev(v) => Some(if x.None? || x.value < v then v else x.value)
    case _ => x
  }

  // ---- instances ----------------------------------------------------------------

  function Member(record: map<string, Js>, key: string): Js {
    if key in record then record[key] else Undefined
  }

  predicate MetadataOk(m: map<string, Js>) {
    forall k :: k in m ==> m[k].String?
  }

  /** Assigning to the prototype of a plain object copies nothing. */
  function CopyMetadata(m: map<string, Js>): map<string, string>
    requires MetadataOk(m)
  {
    map k | k in m && k != "__proto__" :: m[k].s
  }

  /** A record that describes an instance, on its own. */
  function ParseInstance(v: Js): Option<Instance> {
    if !v.Object? then None
    else
      var id, address, lease, metadata := Member(v.members, "instance_id"), Member(v.members, "address"),
        Member(v.members, "lease_expires_ms"), Member(v.members, "metadata");
      if id.String? && id.s != "" && address.String? && address.s != ""
         && lease.Number? && SafeInteger(lease.n) && lease.n >= 0.0
         && metadata.Object? && MetadataOk(metadata.members)
      then Some(Instance(id.s, address.s, lease.n.Floor, CopyMetadata(metadata.members)))
      else None
  }

  /** The record that a server would send for an instance. */
  function Record(x: Instance): Js {
    Object(map["instance_id" := String(x.instanceId), "address" := String(x.address),
               "lease_expires_ms" := Number(x.leaseExpiresMs as real),
               "metadata" := Object(map k | k in x.metadata :: String(x.metadata[k]))])
  }

  /** It parses back exactly when the instance is one a client accepts, less a `__proto__` entry. */
  lemma RecordParsesBack(x: Instance)
    ensures ParseInstance(Record(x)) ==
            if x.instanceId != "" && x.address != "" && 0 <= x.leaseExpiresMs <= MAX_SAFE
            then Some(x.(metadata := x.metadata - {"__proto__"})) else None
  {
    var m := Record(x).members;
    var lease := x.leaseExpiresMs as real;
    assert lease.Floor == x.leaseExpiresMs;
    var metadata := m["metadata"].members;
    assert MetadataOk(metadata) && CopyMetadata(metadata) == x.metadata - {"__proto__"};
    KeysApart();
    assert Member(m, "instance_id") == String(x.instanceId) && Member(m, "address") == String(x.address);
    assert Member(m, "lease_expires_ms") == Number(lease) && Member(m, "metadata") == Object(metadata);
  }

  lemma KeysApart()
    ensures |"instance_id"| == 11 && |"address"| == 7 && |"lease_expires_ms"| == 16 && |"metadata"| == 8
  {
  }

  /** The listed instances in order, when every one is well formed and no id repeats. */
  function ParseAll(items: seq<Js>): (r: Option<seq<Instance>>)
    ensures r.Some? ==> |r.value| == |items| && Unique(r.value)
  {
    if items == [] then Some([])
    else
      var init, last := ParseAll(items[..|items| - 1]), ParseInstance(items[|items| - 1]);
      if init.None? || last.None? || HasId(init.value, last.value.instanceId) then None
      else Some(init.value + [last.value])
  }

  predicate HasId(instances: seq<Instance>, id: string) {
    exists i :: 0 <= i < |instances| && instances[i].instanceId == id
  }

  ghost predicate Unique(instances: seq<Instance>) {
    forall i, j :: 0 <= i < j < |instances| ==> instances[i].instanceId != instances[j].instanceId
  }

  ghost predicate Sorted(rt: Runtime, instances: seq<Instance>) {
    forall i, j :: 0 <= i < j < |instances| ==> rt.before(instances[i].instanceId, instances[j].instanceId)
  }

  /** The stable sort by collation of the id. */
  function Insert(rt: Runtime, sorted: seq<Instance>, x: Instance): seq<Instance> {
    if sorted == [] then [x]
    else
      var last := sorted[|sorted| - 1];
      if rt.before(last.instanceId, x.instanceId) then sorted + [x]
      else Insert(rt, sorted[..|sorted| - 1], x) + [last]
  }

  function Sort(rt: Runtime, instances: seq<Instance>): seq<Instance> {
    if instances == [] then []
    else Insert(rt, Sort(rt, instances[..|instances| - 1]), instances[|instances| - 1])
  }

  lemma {:induction false} InsertMembers(rt: Runtime, sorted: seq<Instance>, x: Instance)
    ensures multiset(Insert(rt, sorted, x)) == multiset(sorted) + multiset{x}
  {
    if sorted != [] {
      var init, last := sorted[..|sorted| - 1], sorted[|sorted| - 1];
      assert sorted == init + [last];
      InsertMembers(rt, init, x);
    }
  }

  lemma {:induction false} InsertKeeps(rt: Runtime, sorted: seq<Instance>, x: Instance)
    requires Collates(rt) && Sorted(rt, sorted)
    ensures Sorted(rt, Insert(rt, sorted, x))
  {
    if sorted != [] {
      var init, last := sorted[..|sorted| - 1], sorted[|sorted| - 1];
      if !rt.before(last.instanceId, x.instanceId) {
        InsertKeeps(rt, init, x);
        InsertMembers(rt, init, x);
        var r := Insert(rt, init, x);
        forall i | 0 <= i < |r|
          ensures rt.before(r[i].instanceId, last.instanceId)
        {
          assert r[i] in multiset(r);
          assert r[i] == x || r[i] in init;
        }
      }
    }
  }

  lemma SortStep(rt: Runtime, init: seq<Instance>, last: Instance)
    requires Collates(rt) && Sorted(rt, Sort(rt, init)) && multiset(Sort(rt, init)) == multiset(init)
    ensures Sorted(rt, Sort(rt, init + [last])) && multiset(Sort(rt, init + [last])) == multiset(init + [last])
  {
    assert (init + [last])[..|init|] == init;
    InsertKeeps(rt, Sort(rt, init), last);
    InsertMembers(rt, Sort(rt, init), last);
  }

  lemma {:induction false} SortSorts(rt: Runtime, instances: seq<Instance>)
    requires Collates(rt)
    ensures Sorted(rt, Sort(rt, instances)) && multiset(Sort(rt, instances)) == multiset(instances)
  {
    if instances != [] {
      var init, last := instances[..|instances| - 1], instances[|instances| - 1];
      SortSorts(rt, init);
      SortStep(rt, init, last);
      assert init + [last] == instances;
    }
  }

  /** Unique ids are a property of the multiset, so sorting keeps them. */
  lemma SameMultisetUnique(a: seq<Instance>, b: seq<Instance>)
    requires multiset(a) == multiset(b) && Unique(a)
    ensures Unique(b)
  {
    forall i, j | 0 <= i < j < |b|
      ensures b[i].instanceId != b[j].instanceId
    {
      assert b[i] in multiset(b) && b[j] in multiset(b);
      assert b[i] in a && b[j] in a;
      if b[i] == b[j] {
        TwiceInMultiset(b, i, j);
        OnceInMultiset(a, b[i]);
        assert false;
      }
    }
  }

  lemma TwiceInMultiset(b: seq<Instance>, i: nat, j: nat)
    requires i < j < |b| && b[i] == b[j]
    ensures multiset(b)[b[i]] >= 2
  {
    assert b == b[..j] + [b[j]] + b[j + 1..];
    assert b[i] in b[..j];
  }

  lemma {:induction false} OnceInMultiset(a: seq<Instance>, x: Instance)
    requires Unique(a)
    ensures multiset(a)[x] <= 1
  {
    if a != [] {
      var init, last := a[..|a| - 1], a[|a| - 1];
      assert a == init + [last];
      OnceInMultiset(init, x);
      assert forall k :: 0 <= k < |init| ==> init[k] == a[k];
    }
  }

  function ParseInstances(rt: Runtime, v: Js): Option<seq<Instance>> {
    if !v.Array? then None
    else
      var all := ParseAll(v.items);
      if all.None? then None else Some(Sort(rt, all.value))
  }

  /** The parsing loop: a set of ids seen, an array pushed to, a sort at the end. */
  method ReadInstances(rt: Runtime, value: Js) returns (r: Option<seq<Instance>>)
    ensures r == ParseInstances(rt, value)
  {
    if !value.Array? {
      return None;
    }
    var seen: set<string> := {};
    var instances: seq<Instance> := [];
    for n := 0 to |value.items|
      invariant ParseAll(value.items[..n]) == Some(instances)
      invariant forall id :: id in seen <==> HasId(instances, id)
    {
      assert value.items[..n + 1][..n] == value.items[..n];
      var parsed := ParseInstance(value.items[n]);
      if parsed.None? || parsed.value.instanceId in seen {
        ParseAllStuck(value.items, n + 1);
        return None;
      }
      seen := seen + {parsed.value.instanceId};
      ghost var before := instances;
      instances := instances + [parsed.value];
      HasIdAppend(before, parsed.value);
    }
    assert value.items[..|value.items|] == value.items;
    r := Some(Sort(rt, instances));
  }

  lemma HasIdAppend(instances: seq<Instance>, x: Instance)
    ensures forall id :: HasId(instances + [x], id) <==> HasId(instances, id) || id == x.instanceId
  {
    var all := instances + [x];
    assert all[|instances|] == x;
    forall id
      ensures HasId(all, id) <==> HasId(instances, id) || id == x.instanceId
    {
      if HasId(instances, id) {
        var i :| 0 <= i < |instances| && instances[i].instanceId == id;
        assert all[i].instanceId == id;
      }
    }
  }

  lemma {:induction false} ParseAllStuck(items: seq<Js>, n: nat)
    requires n <= |items| && ParseAll(items[..n]).None?
    ensures ParseAll(items).None?
    decreases |items| - n
  {
    if n < |items| {
      assert items[..n + 1][..n] == items[..n];
      ParseAllStuck(items, n + 1);
    } else {
      assert items[..n] == items;
    }
  }

  // ---- the reducer ----------------------------------------------------------------

  function RequireResync(s: Replica): Applied {
    Applied(ResyncRequired, s.(synchronized := false, needsResync := true))
  }

  function ApplyEvent(rt: Runtime, s: Replica, e: Envelope): Applied {
    if !e.data.Object? then RequireResync(s)
    else
      var payload := e.data.members;
      var kind := EventKind(e);
      if kind.None? then RequireResync(s)
      else if Member(payload, "scope") != String("service") then Applied(Ignored, s)
      else if kind.value == "snapshot" then ApplySnapshot(rt, s, e)
      else if kind.value == "unavailable" then RequireResync(s)
      else if IsChange(kind.value) then ApplyHint(rt, s, e)
      else RequireResync(s)
  }

  predicate IsChange(kind: string) {
    kind == "register" || kind == "heartbeat" || kind == "deregister"
  }

  /** The kind named by the payload, or by the envelope; None when they clash or neither names one. */
  function EventKind(e: Envelope): Option<string>
    requires e.data.Object?
  {
    var k := Member(e.data.members, "kind");
    var envelope := if e.event.Some? && e.event.value != "" && e.event.value != "message" then e.event else None;
    if !k.String? then envelope
    else if k.s == "" || (envelope.Some? && envelope.value != k.s) then None
    else Some(k.s)
  }

  function ApplySnapshot(rt: Runtime, s: Replica, e: Envelope): Applied
    requires e.data.Object?
  {
    var payload := e.data.members;
    if Member(payload, "service") != String(s.service) then RequireResync(s)
    else if Member(payload, "authoritative") != Bool(true) then RequireResync(s)
    else
      var instances := ParseInstances(rt, Member(payload, "instances"));
      if instances.None? then RequireResync(s)
      else
        var agreed := Agreed(ParseOptionalRevision(rt, Member(payload, "trigger_revision")), IdRevision(rt, e));
        if agreed.None? then RequireResync(s)
        else if agreed.value.Rev? && s.lastObserved.Some? && agreed.value.value < s.lastObserved.value
        then Applied(Ignored, s)
        else
          var observed := MaxDefined(s.lastObserved, agreed.value);
          Applied(SnapshotApplied, Replica(s.service, instances.value, true, false, observed, observed))
  }

  function ApplyHint(rt: Runtime, s: Replica, e: Envelope): Applied
    requires e.data.Object?
  {
    var payload := e.data.members;
    if Member(payload, "key") != String(s.service) then Applied(Ignored, s)
    else
      var agreed := Agreed(ParseOptionalRevision(rt, Member(payload, "revision")), IdRevision(rt, e));
      if agreed.None? || agreed.value.NoRevision? then RequireResync(s)
      else
        var revision := agreed.value.value;
        if AtMost(revision, s.lastObserved) || AtMost(revision, s.lastSnapshot) then Applied(Ignored, s)
        else Applied(HintApplied, s.(synchronized := false, needsResync := false, lastObserved := Some(revision)))
  }

  predicate AtMost(revision: int, bound: Option<int>) {
    bound.Some? && revision <= bound.value
  }

  // ---- runs -------------------------------------------------------------------------

  /** The replica after any events, from its creation for a trimmed service name on. */
  function Run(rt: Runtime, service: string, events: seq<Envelope>): (s: Replica)
    ensures s.service == service
  {
    if events == [] then Replica(service, [], false, true, None, None)
    else
      ServiceKept(rt, Run(rt, service, events[..|events| - 1]), events[|events| - 1]);
      ApplyEvent(rt, Run(rt, service, events[..|events| - 1]), events[|events| - 1]).state
  }

  lemma ServiceKept(rt: Runtime, s: Replica, e: Envelope)
    ensures ApplyEvent(rt, s, e).state.service == s.service
  {
  }

  ghost predicate Inv(rt: Runtime, s: Replica) {
    && Unique(s.instances) && Sorted(rt, s.instances)
    && (s.needsResync ==> !s.synchronized)
    && (s.synchronized ==> s.lastSnapshot == s.lastObserved)
    && (s.lastSnapshot.Some? ==> s.lastObserved.Some? && s.lastSnapshot.value <= s.lastObserved.value)
    && (s.lastObserved.Some? ==> s.lastObserved.value > 0)
  }

  lemma ParsedInstancesOk(rt: Runtime, v: Js)
    requires Collates(rt) && ParseInstances(rt, v).Some?
    ensures Unique(ParseInstances(rt, v).value) && Sorted(rt, ParseInstances(rt, v).value)
  {
    var all := ParseAll(v.items).value;
    SortSorts(rt, all);
    SameMultisetUnique(all, Sort(rt, all));
  }

  lemma StepKeepsInv(rt: Runtime, s: Replica, e: Envelope)
    requires Collates(rt) && Inv(rt, s)
    ensures Inv(rt, ApplyEvent(rt, s, e).state)
  {
    if ApplyEvent(rt, s, e).kind.SnapshotApplied? {
      ParsedInstancesOk(rt, Member(e.data.members, "instances"));
    }
  }

  /** The invariant of every reachable state. */
  lemma {:induction false} RunInv(rt: Runtime, service: string, events: seq<Envelope>)
    requires Collates(rt)
    ensures Inv(rt, Run(rt, service, events))
  {
    if events != [] {
      RunInv(rt, service, events[..|events| - 1]);
      StepKeepsInv(rt, Run(rt, service, events[..|events| - 1]), events[|events| - 1]);
    }
  }

  /** In a reachable state the comparison with the last snapshot never decides. */
  lemma SnapshotTestRedundant(rt: Runtime, service: string, events: seq<Envelope>, revision: int)
    requires Collates(rt)
    ensures var s := Run(rt, service, events);
            AtMost(revision, s.lastObserved) || AtMost(revision, s.lastSnapshot) <==> AtMost(revision, s.lastObserved)
  {
    RunInv(rt, service, events);
  }

  /** Event `e` replaces the instances of the replica that `before` led to. */
  predicate Replaces(rt: Runtime, service: string, before: seq<Envelope>, e: Envelope)
    ensures Replaces(rt, service, before, e) ==> e.data.Object?
  {
    ApplyEvent(rt, Run(rt, service, before), e).kind.SnapshotApplied?
  }

  lemma ReplacesStep(rt: Runtime, s: Replica, e: Envelope)
    ensures ApplyEvent(rt, s, e).kind.SnapshotApplied? ==>
              e.data.Object? && ParseInstances(rt, Member(e.data.members, "instances"))
                                == Some(ApplyEvent(rt, s, e).state.instances)
    ensures !ApplyEvent(rt, s, e).kind.SnapshotApplied? ==> ApplyEvent(rt, s, e).state.instances == s.instances
  {
  }

  /** The instances are those of the last snapshot that was applied, or none were. */
  lemma {:induction false} InstancesOfLastSnapshot(rt: Runtime, service: string, events: seq<Envelope>)
    returns (at: int)
    ensures -1 <= at < |events|
    ensures forall i :: at < i < |events| ==>
                          !Replaces(rt, service, events[..i], events[i])
    ensures at < 0 ==> Run(rt, service, events).instances == []
    ensures at >= 0 ==>
              && Replaces(rt, service, events[..at], events[at])
              && ParseInstances(rt, Member(events[at].data.members, "instances"))
                 == Some(Run(rt, service, events).instances)
  {
    hide ApplyEvent, ParseInstances, ParseOptionalRevision;
    at := -1;
    if events != [] {
      var n := |events| - 1;
      var before := events[..n];
      ReplacesStep(rt, Run(rt, service, before), events[n]);
      if Replaces(rt, service, before, events[n]) {
        at := n;
      } else {
        at := InstancesOfLastSnapshot(rt, service, before);
        assert forall i :: 0 <= i < n ==> before[..i] == events[..i];
      }
    }
  }

  // ---- convergence --------------------------------------------------------------------

  /** The revision a well-formed event carries for the service, whatever the state. */
  function EventRevision(rt: Runtime, service: string, e: Envelope): (r: Revision)
    ensures !r.Invalid?
  {
    if !e.data.Object? || Member(e.data.members, "scope") != String("service") then NoRevision
    else
      var payload, kind := e.data.members, EventKind(e);
      if kind == Some("snapshot") && WellFormedSnapshot(rt, service, e) then
        Agreed(ParseOptionalRevision(rt, Member(payload, "trigger_revision")), IdRevision(rt, e)).value
      else if kind.Some? && IsChange(kind.value) && Member(payload, "key") == String(service) then
        Agreed(ParseOptionalRevision(rt, Member(payload, "revision")), IdRevision(rt, e)).GetOr(NoRevision)
      else NoRevision
  }

  predicate WellFormedSnapshot(rt: Runtime, service: string, e: Envelope) {
    && e.data.Object?
    && var payload := e.data.members;
    && EventKind(e) == Some("snapshot")
    && Member(payload, "scope") == String("service")
    && Member(payload, "service") == String(service)
    && Member(payload, "authoritative") == Bool(true)
    && ParseInstances(rt, Member(payload, "instances")).Some?
    && Agreed(ParseOptionalRevision(rt, Member(payload, "trigger_revision")), IdRevision(rt, e)).Some?
  }

  /** `m` is the greatest revision of the well-formed events, or there is none. */
  ghost predicate IsMaximum(rt: Runtime, service: string, events: seq<Envelope>, m: Option<int>) {
    && (m.None? ==> forall i :: 0 <= i < |events| ==> EventRevision(rt, service, events[i]).NoRevision?)
    && (m.Some? ==>
          && (exists i :: 0 <= i < |events| && EventRevision(rt, service, events[i]) == Rev(m.value))
          && forall i :: 0 <= i < |events| && EventRevision(rt, service, events[i]).Rev? ==>
                           EventRevision(rt, service, events[i]).value <= m.value)
  }

  lemma StepObserves(rt: Runtime, s: Replica, e: Envelope)
    requires Inv(rt, s)
    ensures ApplyEvent(rt, s, e).state.lastObserved == MaxDefined(s.lastObserved, EventRevision(rt, s.service, e))
  {
  }

  lemma MaximumStep(rt: Runtime, service: string, before: seq<Envelope>, m: Option<int>, e: Envelope)
    requires IsMaximum(rt, service, before, m)
    ensures IsMaximum(rt, service, before + [e], MaxDefined(m, EventRevision(rt, service, e)))
  {
    var all, r := before + [e], EventRevision(rt, service, e);
    assert all[|before|] == e;
    assert forall i :: 0 <= i < |before| ==> all[i] == before[i];
    if m.Some? {
      var i :| 0 <= i < |before| && EventRevision(rt, service, before[i]) == Rev(m.value);
      assert EventRevision(rt, service, all[i]) == Rev(m.value);
    }
  }

  /** After every run the observed revision is the greatest one, in whatever order and however often events came. */
  lemma {:induction false} ObservedIsMaximum(rt: Runtime, service: string, events: seq<Envelope>)
    requires Collates(rt)
    ensures IsMaximum(rt, service, events, Run(rt, service, events).lastObserved)
  {
    if events != [] {
      var before, e := events[..|events| - 1], events[|events| - 1];
      var s := Run(rt, service, before);
      ObservedIsMaximum(rt, service, before);
      RunInv(rt, service, before);
      StepObserves(rt, s, e);
      MaximumStep(rt, service, before, s.lastObserved, e);
      assert before + [e] == events;
    }
  }

  /** The maximum does not depend on order or duplication. */
  lemma MaximumIsUnique(rt: Runtime, service: string, a: seq<Envelope>, b: seq<Envelope>, m: Option<int>, n: Option<int>)
    requires IsMaximum(rt, service, a, m) && IsMaximum(rt, service, b, n)
    requires forall e :: e in a <==> e in b
    ensures m == n
  {
    if m.Some? {
      var i :| 0 <= i < |a| && EventRevision(rt, service, a[i]) == Rev(m.value);
      assert a[i] in b;
    }
    if n.Some? {
      var i :| 0 <= i < |b| && EventRevision(rt, service, b[i]) == Rev(n.value);
      assert b[i] in a;
    }
  }

  /**
   Two replicas that saw the same events, in any order and multiplicity, are
   equal after one more well-formed snapshot that carries no revision.
   */
  lemma ReplicasConverge(rt: Runtime, service: string, a: seq<Envelope>, b: seq<Envelope>, e: Envelope)
    requires Collates(rt)
    requires Run(rt, service, a).lastObserved == Run(rt, service, b).lastObserved || forall x :: x in a <==> x in b
    requires WellFormedSnapshot(rt, service, e) && EventRevision(rt, service, e).NoRevision?
    ensures Run(rt, service, a + [e]) == Run(rt, service, b + [e])
    ensures Run(rt, service, a + [e]).synchronized
  {
    if Run(rt, service, a).lastObserved != Run(rt, service, b).lastObserved {
      ObservedIsMaximum(rt, service, a);
      ObservedIsMaximum(rt, service, b);
      MaximumIsUnique(rt, service, a, b, Run(rt, service, a).lastObserved, Run(rt, service, b).lastObserved);
      assert false;
    }
    assert (a + [e])[..|a|] == a && (b + [e])[..|b|] == b;
    SnapshotWithoutRevision(rt, Run(rt, service, a), e);
    SnapshotWithoutRevision(rt, Run(rt, service, b), e);
  }

  lemma SnapshotWithoutRevision(rt: Runtime, s: Replica, e: Envelope)
    requires WellFormedSnapshot(rt, s.service, e) && EventRevision(rt, s.service, e).NoRevision?
    ensures ApplyEvent(rt, s, e).state
            == Replica(s.service, ParseInstances(rt, Member(e.data.members, "instances")).value, true, false,
                       s.lastObserved, s.lastObserved)
  {
  }
}
