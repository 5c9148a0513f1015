/** What one event does to a replica, in terms of the payload itself. */
module DiscoveryLaws {
  import opened Wrappers
  import opened Discovery

  // ---- reading the payload --------------------------------------------------------------

  predicate Has(e: Envelope, key: string, v: Js) {
    e.data.Object? && key in e.data.members && e.data.members[key] == v
  }

  /** The event names `kind`: payload and envelope, or the one of them that names any. */
  predicate OfKind(e: Envelope, kind: string) {
    && e.data.Object?
    && var named := "kind" in e.data.members && e.data.members["kind"].String?;
    && var enveloped := e.event.Some? && e.event.value != "" && e.event.value != "message";
    && (named || enveloped)
    && (named ==> kind != "" && Has(e, "kind", String(kind)))
    && (enveloped ==> e.event == Some(kind))
  }

  lemma KindIs(e: Envelope, kind: string)
    requires e.data.Object?
    ensures EventKind(e) == Some(kind) <==> OfKind(e, kind)
  {
  }

  /** A value that stands for revision `n`. */
  predicate Means(rt: Runtime, v: Js, n: int) {
    && v != Undefined && v != Null && v != String("")
    && 1 <= n <= 9007199254740991
    && (if v.Number? then v.n == n as real else !v.NotFinite? && rt.toNumber(v) == Some(n as real))
  }

  predicate Absent(v: Js) {
    v == Undefined || v == Null || v == String("")
  }

  lemma RevisionIs(rt: Runtime, v: Js)
    ensures forall n :: ParseOptionalRevision(rt, v) == Rev(n) <==> Means(rt, v, n)
    ensures ParseOptionalRevision(rt, v) == NoRevision <==> Absent(v)
  {
    forall n
      ensures ParseOptionalRevision(rt, v) == Rev(n) <==> Means(rt, v, n)
    {
      assert (n as real).Floor == n;
    }
  }

  function Field(e: Envelope, key: string): Js
    requires e.data.Object?
  {
    if key in e.data.members then e.data.members[key] else Undefined
  }

  function IdText(e: Envelope): Js {
    match e.id
    case None => Undefined
    case Some(id) => String(id)
  }

  /** The payload field and the envelope's id carry revision `n` between them, and nothing else. */
  predicate Carries(rt: Runtime, e: Envelope, key: string, n: int)
    requires e.data.Object?
  {
    var v, id := Field(e, key), IdText(e);
    && (Means(rt, v, n) || Absent(v))
    && (Means(rt, id, n) || Absent(id))
    && !(Absent(v) && Absent(id))
  }

  predicate CarriesNone(e: Envelope, key: string)
    requires e.data.Object?
  {
    Absent(Field(e, key)) && Absent(IdText(e))
  }

  lemma AgreedIs(rt: Runtime, e: Envelope, key: string)
    requires e.data.Object?
    ensures var agreed := Agreed(ParseOptionalRevision(rt, Member(e.data.members, key)), IdRevision(rt, e));
            && (forall n :: agreed == Some(Rev(n)) <==> Carries(rt, e, key, n))
            && (agreed == Some(NoRevision) <==> CarriesNone(e, key))
            && agreed != Some(Invalid)
            && (agreed.Some? <==> CarriesNone(e, key) || exists n :: Carries(rt, e, key, n))
  {
    hide ParseOptionalRevision, Means;
    var v, id := Field(e, key), IdText(e);
    RevisionIs(rt, v);
    RevisionIs(rt, id);
    MeansOne(rt, v);
    MeansOne(rt, id);
    var agreed := Agreed(ParseOptionalRevision(rt, v), ParseOptionalRevision(rt, id));
    forall n
      ensures agreed == Some(Rev(n)) <==> Carries(rt, e, key, n)
    {
    }
    if agreed.Some? && agreed.value.Rev? {
      assert Carries(rt, e, key, agreed.value.value);
    }
  }

  /** A value stands for one revision at most, and an absent one for none. */
  lemma MeansOne(rt: Runtime, v: Js)
    ensures forall m, n :: Means(rt, v, m) && Means(rt, v, n) ==> m == n
    ensures forall n :: Means(rt, v, n) ==> !Absent(v)
  {
    forall m, n | Means(rt, v, m) && Means(rt, v, n)
      ensures m == n
    {
      assert (m as real).Floor == m && (n as real).Floor == n;
    }
  }

  // ---- one step ----------------------------------------------------------------------------

  predicate Ours(e: Envelope) {
    Has(e, "scope", String("service"))
  }

  predicate IsHint(e: Envelope) {
    OfKind(e, "register") || OfKind(e, "heartbeat") || OfKind(e, "deregister")
  }

  ghost predicate GoodSnapshot(rt: Runtime, s: Replica, e: Envelope) {
    && OfKind(e, "snapshot") && Ours(e)
    && Has(e, "service", String(s.service)) && Has(e, "authoritative", Bool(true))
    && ParseInstances(rt, Field(e, "instances")).Some?
    && (CarriesNone(e, "trigger_revision") || exists n :: Carries(rt, e, "trigger_revision", n))
  }

  ghost predicate GoodHint(rt: Runtime, e: Envelope) {
    IsHint(e) && Ours(e) && exists n :: Carries(rt, e, "revision", n)
  }

  /**
   The events after which the replica must be synchronised anew: no payload, no one
   kind, a snapshot or a hint about this service that is not well formed, and every
   other kind about services, `unavailable` among them.
   */
  ghost predicate Demands(rt: Runtime, s: Replica, e: Envelope) {
    || !e.data.Object?
    || (forall kind :: !OfKind(e, kind))
    || (&& Ours(e)
        && if OfKind(e, "snapshot") then !GoodSnapshot(rt, s, e)
           else if IsHint(e) then Has(e, "key", String(s.service)) && !GoodHint(rt, e)
           else true)
  }

  lemma KindCases(e: Envelope)
    requires e.data.Object?
    ensures EventKind(e).None? <==> forall kind :: !OfKind(e, kind)
    ensures EventKind(e) == Some("snapshot") <==> OfKind(e, "snapshot")
    ensures (EventKind(e).Some? && IsChange(EventKind(e).value)) <==> IsHint(e)
  {
    hide EventKind, OfKind;
    forall kind
      ensures EventKind(e) == Some(kind) <==> OfKind(e, kind)
    {
      KindIs(e, kind);
    }
    if EventKind(e).Some? {
      assert OfKind(e, EventKind(e).value);
    }
  }

  /** What the replica is left with when it has to be synchronised anew. */
  function Resynced(s: Replica): Replica {
    Replica(s.service, s.instances, false, true, s.lastObserved, s.lastSnapshot)
  }

  /** A snapshot is applied, unless something newer was observed. */
  lemma SnapshotStep(rt: Runtime, s: Replica, e: Envelope)
    requires OfKind(e, "snapshot") && Ours(e)
    ensures var applied := ApplyEvent(rt, s, e);
            if !GoodSnapshot(rt, s, e) then applied == Applied(ResyncRequired, Resynced(s))
            else if exists n :: Carries(rt, e, "trigger_revision", n) && s.lastObserved.Some? && n < s.lastObserved.value
            then applied == Applied(Ignored, s)
            else
              && applied.kind == SnapshotApplied
              && applied.state.service == s.service
              && Some(applied.state.instances) == ParseInstances(rt, Field(e, "instances"))
              && applied.state.synchronized && !applied.state.needsResync
              && applied.state.lastSnapshot == applied.state.lastObserved
              && (CarriesNone(e, "trigger_revision") ==> applied.state.lastObserved == s.lastObserved)
              && forall n :: Carries(rt, e, "trigger_revision", n) ==> applied.state.lastObserved == Some(n)
  {
    hide EventKind, OfKind, Carries, CarriesNone, ParseOptionalRevision, IsChange, IdRevision, Agreed, ParseInstances;
    KindCases(e);
    AgreedIs(rt, e, "trigger_revision");
    var agreed := Agreed(ParseOptionalRevision(rt, Member(e.data.members, "trigger_revision")), IdRevision(rt, e));
    assert ApplyEvent(rt, s, e) == ApplySnapshot(rt, s, e);
    assert agreed.Some? && agreed.value.Rev? ==> Carries(rt, e, "trigger_revision", agreed.value.value);
    assert forall n :: Carries(rt, e, "trigger_revision", n) ==> agreed == Some(Rev(n));
  }

  /** A hint about this service makes it stale, unless it tells nothing new. */
  lemma HintStep(rt: Runtime, s: Replica, e: Envelope)
    requires IsHint(e) && Ours(e)
    ensures var applied := ApplyEvent(rt, s, e);
            if !Has(e, "key", String(s.service)) then applied == Applied(Ignored, s)
            else if !GoodHint(rt, e) then applied == Applied(ResyncRequired, Resynced(s))
            else forall n :: Carries(rt, e, "revision", n) ==>
              applied ==
                if (s.lastObserved.Some? && n <= s.lastObserved.value) || (s.lastSnapshot.Some? && n <= s.lastSnapshot.value)
                then Applied(Ignored, s)
                else Applied(HintApplied, Replica(s.service, s.instances, false, false, Some(n), s.lastSnapshot))
  {
    NotBoth(e);
    hide EventKind, OfKind, Carries, CarriesNone, ParseOptionalRevision, IdRevision, Agreed, ParseInstances;
    KindCases(e);
    AgreedIs(rt, e, "revision");
    var agreed := Agreed(ParseOptionalRevision(rt, Member(e.data.members, "revision")), IdRevision(rt, e));
    assert ApplyEvent(rt, s, e) == ApplyHint(rt, s, e);
    assert agreed.Some? && agreed.value.Rev? ==> Carries(rt, e, "revision", agreed.value.value);
    assert forall n :: Carries(rt, e, "revision", n) ==> agreed == Some(Rev(n));
  }

  /** Every other event: about something else, or a reason to resynchronise. */
  lemma OtherStep(rt: Runtime, s: Replica, e: Envelope)
    requires !(Ours(e) && (OfKind(e, "snapshot") || IsHint(e)))
    ensures ApplyEvent(rt, s, e) ==
              if e.data.Object? && (exists kind :: OfKind(e, kind)) && !Ours(e) then Applied(Ignored, s)
              else Applied(ResyncRequired, Resynced(s))
  {
    if e.data.Object? {
      hide EventKind, OfKind, ParseOptionalRevision, IsChange, ApplySnapshot, ApplyHint;
      KindCases(e);
    }
  }

  /** Exactly those events demand it, and then nothing but the two flags changes. */
  lemma ResyncExactly(rt: Runtime, s: Replica, e: Envelope)
    ensures ApplyEvent(rt, s, e).kind.ResyncRequired? <==> Demands(rt, s, e)
    ensures Demands(rt, s, e) ==> ApplyEvent(rt, s, e).state == Resynced(s)
  {
    NotBoth(e);
    SomeKind(e);
    hide ApplyEvent, OfKind, Carries, CarriesNone, ParseInstances;
    if Ours(e) && OfKind(e, "snapshot") {
      SnapshotStep(rt, s, e);
    } else if Ours(e) && IsHint(e) {
      HintStep(rt, s, e);
    } else {
      OtherStep(rt, s, e);
    }
  }

  lemma SomeKind(e: Envelope)
    ensures IsHint(e) ==> exists kind :: OfKind(e, kind)
    ensures forall kind :: OfKind(e, kind) ==> e.data.Object?
  {
  }

  /** From then on the replica is not synchronised until a snapshot is applied. */
  lemma {:induction false} UnsynchronizedUntilSnapshot(rt: Runtime, service: string, events: seq<Envelope>, i: nat, j: nat)
    requires i < j <= |events| && Demands(rt, Run(rt, service, events[..i]), events[i])
    requires forall k :: i < k < j ==> !Replaces(rt, service, events[..k], events[k])
    ensures !Run(rt, service, events[..j]).synchronized
    decreases j
  {
    hide ApplyEvent, Demands;
    var before, e := events[..j - 1], events[j - 1];
    assert events[..j][..|events[..j]| - 1] == before && events[..j][j - 1] == e;
    var s := Run(rt, service, before);
    if i == j - 1 {
      ResyncExactly(rt, s, e);
    } else {
      UnsynchronizedUntilSnapshot(rt, service, events, i, j - 1);
      assert !Replaces(rt, service, events[..j - 1], events[j - 1]);
      OnlySnapshotsSynchronize(rt, s, e);
    }
  }

  lemma OnlySnapshotsSynchronize(rt: Runtime, s: Replica, e: Envelope)
    requires !s.synchronized && !ApplyEvent(rt, s, e).kind.SnapshotApplied?
    ensures !ApplyEvent(rt, s, e).state.synchronized
  {
  }

  lemma NotBoth(e: Envelope)
    ensures OfKind(e, "snapshot") ==> !IsHint(e)
  {
  }

  // ---- instances -----------------------------------------------------------------------------

  /** `v` describes instance `x`, whatever else it says. */
  predicate Describes(v: Js, x: Instance) {
    && v.Object?
    && (forall key :: key in {"instance_id", "address", "lease_expires_ms", "metadata"} ==> key in v.members)
    && v.members["instance_id"] == String(x.instanceId) && x.instanceId != ""
    && v.members["address"] == String(x.address) && x.address != ""
    && v.members["lease_expires_ms"] == Number(x.leaseExpiresMs as real) && 0 <= x.leaseExpiresMs <= 9007199254740991
    && var metadata := v.members["metadata"];
    && metadata.Object? && x.metadata.Keys == metadata.members.Keys - {"__proto__"}
    && (forall k :: k in metadata.members ==> metadata.members[k].String?)
    && forall k :: k in x.metadata ==> metadata.members[k] == String(x.metadata[k])
  }

  /** A record is read as the instance it describes, and as nothing when it describes none. */
  lemma ParsedIsDescribed(v: Js, x: Instance)
    ensures ParseInstance(v) == Some(x) <==> Describes(v, x)
  {
    assert (x.leaseExpiresMs as real).Floor == x.leaseExpiresMs;
    if Describes(v, x) {
      assert CopyMetadata(v.members["metadata"].members) == x.metadata;
    }
  }
}
