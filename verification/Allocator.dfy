/**
 One isolated source root for every target: the preferred directory when it is
 inside the repository, unclaimed and not reserved for another target, and the
 target's canonical directory otherwise. What the file system says is a
 parameter: the preferred path of a target and the resolution of paths.
 */
module Allocator {

  datatype Target = Target(name: string, canonical: string)

  /** `preferred` is what the directory search returns; `resolve` follows links. */
  datatype Disk = Disk(preferred: Target -> string, resolve: string -> string, inside: string -> bool)

  datatype Choice = Chosen(selected: map<string, string>) | Escapes(name: string) | Collides(name: string)

  function Home(d: Disk, t: Target): string {
    d.resolve(t.canonical)
  }

  ghost predicate DistinctNames(targets: seq<Target>) {
    forall i, j :: 0 <= i < j < |targets| ==> targets[i].name != targets[j].name
  }

  /** Canonical directories resolve to distinct places inside the repository. */
  ghost predicate CanonicalOk(d: Disk, targets: seq<Target>) {
    && (forall i :: 0 <= i < |targets| ==> d.inside(Home(d, targets[i])))
    && (forall i, j :: 0 <= i < j < |targets| ==> Home(d, targets[i]) != Home(d, targets[j]))
  }

  /** The owner of a reserved place: the last target whose canonical directory is there. */
  function Reserved(d: Disk, targets: seq<Target>): map<string, string> {
    if targets == [] then map[]
    else Reserved(d, targets[..|targets| - 1])[Home(d, targets[|targets| - 1]) := targets[|targets| - 1].name]
  }

  /** Every canonical place is reserved, for a target whose canonical place it is. */
  lemma {:induction false} ReservedHomes(d: Disk, targets: seq<Target>, place: string)
    ensures place in Reserved(d, targets) <==> exists i :: 0 <= i < |targets| && Home(d, targets[i]) == place
    ensures place in Reserved(d, targets) ==>
              exists i :: 0 <= i < |targets| && Home(d, targets[i]) == place
                          && Reserved(d, targets)[place] == targets[i].name
  {
    if targets != [] {
      var init := targets[..|targets| - 1];
      ReservedHomes(d, init, place);
      assert forall i :: 0 <= i < |init| ==> init[i] == targets[i];
    }
  }

  /** Target `t` may have its preferred directory, given the places already claimed. */
  predicate Available(d: Disk, targets: seq<Target>, claimed: set<string>, t: Target) {
    var place := d.resolve(d.preferred(t));
    && d.inside(place)
    && place !in claimed
    && (place in Reserved(d, targets) ==> Reserved(d, targets)[place] == t.name)
  }

  ghost predicate Named(targets: seq<Target>, selected: map<string, string>, n: nat) {
    n <= |targets| && forall i :: 0 <= i < n ==> targets[i].name in selected
  }

  ghost function Place(d: Disk, targets: seq<Target>, selected: map<string, string>, i: nat): string
    requires i < |targets| && targets[i].name in selected
  {
    d.resolve(selected[targets[i].name])
  }

  /** The places of the first `n` targets. */
  ghost function Places(d: Disk, targets: seq<Target>, selected: map<string, string>, n: nat): set<string>
    requires Named(targets, selected, n)
  {
    set i | 0 <= i < n :: Place(d, targets, selected, i)
  }

  /**
   What the choice for target `i` is: inside, apart from those before it, its
   owner's canonical directory or reserved for nobody, and the preferred one
   whenever that is available.
   */
  ghost predicate Slot(d: Disk, targets: seq<Target>, selected: map<string, string>, i: nat)
    requires Named(targets, selected, i + 1)
  {
    var place, before := Place(d, targets, selected, i), Places(d, targets, selected, i);
    && d.inside(place)
    && place !in before
    && (place == Home(d, targets[i]) || place !in Reserved(d, targets))
    && selected[targets[i].name]
       == if Available(d, targets, before, targets[i]) then d.preferred(targets[i]) else targets[i].canonical
  }

  ghost function Names(targets: seq<Target>, n: nat): set<string>
    requires n <= |targets|
  {
    if n == 0 then {} else Names(targets, n - 1) + {targets[n - 1].name}
  }

  ghost predicate Allocation(d: Disk, targets: seq<Target>, selected: map<string, string>, n: nat) {
    && Named(targets, selected, n)
    && selected.Keys == Names(targets, n)
    && forall i :: 0 <= i < n ==> Slot(d, targets, selected, i)
  }

  /** Accepted places are pairwise distinct. */
  lemma PlacesDistinct(d: Disk, targets: seq<Target>, selected: map<string, string>, i: nat, j: nat)
    requires Allocation(d, targets, selected, |targets|) && i < j < |targets|
    ensures Place(d, targets, selected, i) != Place(d, targets, selected, j)
  {
    assert Slot(d, targets, selected, j);
    assert Place(d, targets, selected, i) in Places(d, targets, selected, j);
  }

  /**
   The allocation loop. Whatever the disk says, an accepted choice is isolated
   and inside the repository; and when the canonical directories are distinct
   and inside, it accepts every manifest.
   */
  method ChooseTargetDirs(d: Disk, targets: seq<Target>) returns (r: Choice)
    requires DistinctNames(targets)
    ensures r.Chosen? ==> Allocation(d, targets, r.selected, |targets|)
    ensures CanonicalOk(d, targets) ==> r.Chosen?
  {
    var reserved := Reserved(d, targets);
    var claimed: set<string> := {};
    var selected: map<string, string> := map[];
    for n := 0 to |targets|
      invariant Allocation(d, targets, selected, n)
      invariant claimed == Places(d, targets, selected, n)
    {
      var t := targets[n];
      var preferred := d.preferred(t);
      var place := d.resolve(preferred);
      if !d.inside(place) {
        preferred := t.canonical;
        place := d.resolve(preferred);
      }
      if !d.inside(place) {
        return Escapes(t.name);
      }
      if place in claimed || (place in reserved && reserved[place] != t.name) {
        preferred := t.canonical;
        place := d.resolve(preferred);
      }
      if !d.inside(place) {
        return Escapes(t.name);
      }
      HomeUnclaimed(d, targets, selected, n);
      if place in claimed {
        return Collides(t.name);
      }
      OwnOrUnreserved(d, targets, n, place);
      Extend(d, targets, selected, n, preferred);
      claimed := claimed + {place};
      selected := selected[t.name := preferred];
    }
    r := Chosen(selected);
  }

  /** An earlier target cannot sit in the canonical directory of a later one. */
  lemma HomeUnclaimed(d: Disk, targets: seq<Target>, selected: map<string, string>, n: nat)
    requires n < |targets| && Allocation(d, targets, selected, n)
    ensures CanonicalOk(d, targets) ==> Home(d, targets[n]) !in Places(d, targets, selected, n)
  {
    ReservedHomes(d, targets, Home(d, targets[n]));
    if CanonicalOk(d, targets) {
      forall i | 0 <= i < n
        ensures Place(d, targets, selected, i) != Home(d, targets[n])
      {
        assert Slot(d, targets, selected, i);
      }
    }
  }

  lemma OwnOrUnreserved(d: Disk, targets: seq<Target>, n: nat, place: string)
    requires n < |targets| && DistinctNames(targets)
    ensures place in Reserved(d, targets) && Reserved(d, targets)[place] == targets[n].name ==>
              place == Home(d, targets[n])
  {
    ReservedHomes(d, targets, place);
  }

  lemma Extend(d: Disk, targets: seq<Target>, selected: map<string, string>, n: nat, preferred: string)
    requires n < |targets| && DistinctNames(targets) && Allocation(d, targets, selected, n)
    requires d.inside(d.resolve(preferred)) && d.resolve(preferred) !in Places(d, targets, selected, n)
    requires d.resolve(preferred) == Home(d, targets[n]) || d.resolve(preferred) !in Reserved(d, targets)
    requires preferred == if Available(d, targets, Places(d, targets, selected, n), targets[n])
                          then d.preferred(targets[n]) else targets[n].canonical
    ensures Allocation(d, targets, selected[targets[n].name := preferred], n + 1)
    ensures Places(d, targets, selected[targets[n].name := preferred], n + 1)
            == Places(d, targets, selected, n) + {d.resolve(preferred)}
  {
    var after := selected[targets[n].name := preferred];
    forall i | 0 <= i < n
      ensures after[targets[i].name] == selected[targets[i].name]
    {
    }
    assert Named(targets, after, n + 1);
    SamePlaces(d, targets, selected, after, n);
    PlacesStep(d, targets, after, n);
    forall i | 0 <= i < n + 1
      ensures Slot(d, targets, after, i)
    {
      if i < n {
        SlotKept(d, targets, selected, after, i);
      }
    }
    assert after.Keys == Names(targets, n + 1);
  }

  lemma PlacesStep(d: Disk, targets: seq<Target>, selected: map<string, string>, n: nat)
    requires Named(targets, selected, n + 1)
    ensures Places(d, targets, selected, n + 1) == Places(d, targets, selected, n) + {Place(d, targets, selected, n)}
  {
  }

  lemma SlotKept(d: Disk, targets: seq<Target>, a: map<string, string>, b: map<string, string>, i: nat)
    requires Named(targets, a, i + 1) && Named(targets, b, i + 1) && Slot(d, targets, a, i)
    requires forall k :: 0 <= k <= i ==> a[targets[k].name] == b[targets[k].name]
    ensures Slot(d, targets, b, i)
  {
    SamePlaces(d, targets, a, b, i);
  }

  lemma SamePlaces(d: Disk, targets: seq<Target>, a: map<string, string>, b: map<string, string>, n: nat)
    requires Named(targets, a, n) && Named(targets, b, n)
    requires forall i :: 0 <= i < n ==> a[targets[i].name] == b[targets[i].name]
    ensures Places(d, targets, a, n) == Places(d, targets, b, n)
  {
    assert forall i :: 0 <= i < n ==> Place(d, targets, a, i) == Place(d, targets, b, i);
  }
}
