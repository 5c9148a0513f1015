/** When the walk over a recursive schema is well founded. */
module SchemaGraph {
  import opened Wrappers
  import opened PyValue
  import opened SchemaMeaning

  ghost predicate Applies(c: Context, s: Value, t: Value) {
    SameInstance(c, s, t) || PartInstance(s, t)
  }

  /** A chain of schemas, each applied by the one before it. */
  ghost predicate Path(c: Context, p: seq<Value>) {
    p != [] && forall i :: 0 < i < |p| ==> Applies(c, p[i - 1], p[i])
  }

  ghost predicate Reachable(c: Context, t: Value) {
    exists p :: Path(c, p) && p[0] == c.root && p[|p| - 1] == t
  }

  /** A chain that stays on one instance. */
  ghost predicate Chain(c: Context, p: seq<Value>) {
    p != [] && forall i :: 0 < i < |p| ==> SameInstance(c, p[i - 1], p[i])
  }

  ghost predicate Leads(c: Context, s: Value, t: Value) {
    exists p :: Chain(c, p) && p[0] == s && p[|p| - 1] == t
  }

  /** No chain of two or more schemas comes back to where it started. */
  ghost predicate OnCycle(c: Context, s: Value) {
    exists p :: Chain(c, p) && |p| >= 2 && p[0] == s && p[|p| - 1] == s
  }

  /**
   What a caller can check: every schema that the root applies has well typed
   operands, and none is applied again to the instance it is being applied to.
   */
  ghost predicate WellFounded(c: Context) {
    forall s :: Reachable(c, s) ==> OperandsOk(s) && !OnCycle(c, s)
  }

  // ---- the schemas of a document are finitely many ------------------------------------

  function SubValues(v: Value): set<Value> {
    match v
    case PyList(items) => {v} + set x, w | x in items && w in SubValues(x) :: w
    case PyDict(members) => {v} + set k, w | k in members && w in SubValues(members[k]) :: w
    case _ => {v}
  }

  lemma {:induction false} Inside(v: Value, w: Value, u: Value)
    requires w in SubValues(v) && u in SubValues(w)
    ensures u in SubValues(v)
    decreases v
  {
    if w != v {
      match v
      case PyList(items) =>
        var x :| x in items && w in SubValues(x);
        Inside(x, w, u);
      case PyDict(members) =>
        var k :| k in members && w in SubValues(members[k]);
        Inside(members[k], w, u);
      case _ =>
    }
  }

  lemma Part(v: Value, w: Value)
    requires (v.PyList? && w in v.items) || (v.PyDict? && exists k :: k in v.members && v.members[k] == w)
    ensures w in SubValues(v)
  {
    assert w in SubValues(w);
  }

  lemma {:induction false} WalkInside(c: Context, v: Value, node: Value, raws: seq<string>)
    requires node in SubValues(v) && Walk(c, node, raws).Some?
    ensures Walk(c, node, raws).value in SubValues(v)
    decreases |raws|
  {
    if raws != [] {
      var next := StepInto(c, node, Token(raws[0])).value;
      Part(node, next);
      Inside(v, node, next);
      WalkInside(c, v, next, raws[1..]);
    }
  }

  lemma PointerInside(c: Context, ref: Value)
    requires Pointer(c, ref).Some?
    ensures Pointer(c, ref).value in SubValues(c.root)
  {
    var frag := ref.s[1..];
    var path := if frag != "" && frag[0] == '/' then frag[1..] else frag;
    if path != "" {
      WalkInside(c, c.root, c.root, SplitOn(path, '/'));
    }
  }

  lemma OperandInside(s: Value, key: string)
    requires Get(s, key).Some?
    ensures Get(s, key).value in SubValues(s)
    ensures forall t :: t in Elements(Get(s, key)) ==> t in SubValues(s)
    ensures forall k :: k in Entries(Get(s, key)) ==> Entries(Get(s, key))[k] in SubValues(s)
  {
    var v := Get(s, key).value;
    Part(s, v);
    forall t | t in Elements(Get(s, key))
      ensures t in SubValues(s)
    {
      Part(v, t);
      Inside(s, v, t);
    }
    forall k | k in Entries(Get(s, key))
      ensures Entries(Get(s, key))[k] in SubValues(s)
    {
      Part(v, v.members[k]);
      Inside(s, v, v.members[k]);
    }
  }

  lemma AppliesInside(c: Context, s: Value, t: Value)
    requires s in SubValues(c.root) && Applies(c, s, t)
    ensures t in SubValues(c.root)
  {
    hide SubValues, Pointer;
    if Target(c, s) == Some(t) {
      PointerInside(c, Get(s, "$ref").value);
    } else {
      forall key | Get(s, key).Some?
        ensures Get(s, key).value in SubValues(s)
        ensures forall u :: u in Elements(Get(s, key)) ==> u in SubValues(s)
        ensures forall k :: k in Entries(Get(s, key)) ==> Entries(Get(s, key))[k] in SubValues(s)
      {
        OperandInside(s, key);
      }
      Inside(c.root, s, t);
    }
  }

  lemma {:induction false} PathInside(c: Context, p: seq<Value>)
    requires Path(c, p) && p[0] == c.root
    ensures p[|p| - 1] in SubValues(c.root)
    decreases |p|
  {
    hide Applies;
    if |p| > 1 {
      var q := p[..|p| - 1];
      PathInside(c, q);
      assert Applies(c, p[|p| - 2], p[|p| - 1]);
      AppliesInside(c, p[|p| - 2], p[|p| - 1]);
    } else {
      assert c.root in SubValues(c.root);
    }
  }

  ghost function Schemas(c: Context): set<Value> {
    set v | v in SubValues(c.root) && Reachable(c, v)
  }

  lemma ReachableNext(c: Context, s: Value, t: Value)
    requires Reachable(c, s) && Applies(c, s, t)
    ensures Reachable(c, t) && t in Schemas(c)
  {
    hide Applies, SubValues;
    var p :| Path(c, p) && p[0] == c.root && p[|p| - 1] == s;
    var q := p + [t];
    assert Path(c, q);
    assert q[0] == c.root && q[|q| - 1] == t;
    PathInside(c, q);
  }

  // ---- counting what can be reached on one instance ---------------------------------------

  ghost function Ahead(c: Context, s: Value): set<Value> {
    set t | t in Schemas(c) && Leads(c, s, t)
  }

  ghost function Height(c: Context): Value -> nat {
    (s: Value) => |Ahead(c, s)|
  }

  lemma AheadShrinks(c: Context, s: Value, t: Value)
    requires WellFounded(c) && s in Schemas(c) && t in Schemas(c) && SameInstance(c, s, t)
    ensures |Ahead(c, t)| < |Ahead(c, s)|
  {
    hide SameInstance, SubValues, Reachable;
    forall u | u in Ahead(c, t)
      ensures u in Ahead(c, s) && u != s
    {
      var p :| Chain(c, p) && p[0] == t && p[|p| - 1] == u;
      var q := [s] + p;
      assert Chain(c, q);
      assert |q| >= 2 && q[0] == s && q[|q| - 1] == u;
    }
    assert Chain(c, [s]) && [s][0] == s;
    assert s in Ahead(c, s);
    SubsetSize(Ahead(c, t) + {s}, Ahead(c, s));
  }

  lemma {:induction false} SubsetSize(a: set<Value>, b: set<Value>)
    requires a <= b
    ensures |a| <= |b|
  {
    if a != {} {
      var x :| x in a;
      SubsetSize(a - {x}, b - {x});
    }
  }

  /** A rank falls along a chain, so nothing ranked is on a cycle. */
  lemma {:induction false} RankFalls(c: Context, nodes: set<Value>, rank: Value -> nat, p: seq<Value>)
    requires Ranked(c, nodes, rank) && Chain(c, p) && p[0] in nodes
    ensures p[|p| - 1] in nodes && (|p| > 1 ==> rank(p[|p| - 1]) < rank(p[0]))
    decreases |p|
  {
    hide SameInstance, PartInstance, OperandsOk;
    if |p| > 1 {
      RankFalls(c, nodes, rank, p[..|p| - 1]);
      assert SameInstance(c, p[|p| - 2], p[|p| - 1]);
    }
  }

  lemma {:induction false} NodesHoldPath(c: Context, nodes: set<Value>, rank: Value -> nat, p: seq<Value>)
    requires Ranked(c, nodes, rank) && Path(c, p) && p[0] == c.root
    ensures p[|p| - 1] in nodes
    decreases |p|
  {
    hide SameInstance, PartInstance, OperandsOk;
    if |p| > 1 {
      NodesHoldPath(c, nodes, rank, p[..|p| - 1]);
      assert Applies(c, p[|p| - 2], p[|p| - 1]);
    }
  }

  /**
   The validator's measure exists exactly when the document is well founded: the
   rank of a schema is the number of schemas that its chains can reach.
   */
  lemma RankedExactlyWhenWellFounded(c: Context)
    ensures WellFounded(c) <==> exists nodes, rank :: Ranked(c, nodes, rank)
    ensures WellFounded(c) ==> Ranked(c, Schemas(c), Height(c))
  {
    hide SameInstance, PartInstance, OperandsOk, Reachable, OnCycle, Ahead;
    if WellFounded(c) {
      WellFoundedIsRanked(c);
    }
    if exists nodes, rank :: Ranked(c, nodes, rank) {
      var nodes, rank :| Ranked(c, nodes, rank);
      RankedIsWellFounded(c, nodes, rank);
    }
  }

  lemma WellFoundedIsRanked(c: Context)
    requires WellFounded(c)
    ensures Ranked(c, Schemas(c), Height(c))
  {
    hide SameInstance, PartInstance, OperandsOk, OnCycle, Ahead, SubValues;
    assert Path(c, [c.root]) && [c.root][0] == c.root;
    PathInside(c, [c.root]);
    forall s, t | s in Schemas(c) && SameInstance(c, s, t)
      ensures t in Schemas(c) && Height(c)(t) < Height(c)(s)
    {
      assert Applies(c, s, t);
      ReachableNext(c, s, t);
      AheadShrinks(c, s, t);
    }
    forall s, t | s in Schemas(c) && PartInstance(s, t)
      ensures t in Schemas(c)
    {
      assert Applies(c, s, t);
      ReachableNext(c, s, t);
    }
  }

  lemma RankedIsWellFounded(c: Context, nodes: set<Value>, rank: Value -> nat)
    requires Ranked(c, nodes, rank)
    ensures WellFounded(c)
  {
    hide SameInstance, PartInstance, OperandsOk;
    forall s | Reachable(c, s)
      ensures OperandsOk(s) && !OnCycle(c, s)
    {
      var p :| Path(c, p) && p[0] == c.root && p[|p| - 1] == s;
      NodesHoldPath(c, nodes, rank, p);
      if OnCycle(c, s) {
        var q :| Chain(c, q) && |q| >= 2 && q[0] == s && q[|q| - 1] == s;
        RankFalls(c, nodes, rank, q);
        assert false;
      }
    }
  }

  /** The smallest document that is not: a schema that refers to itself. */
  lemma SelfReferenceIsNotWellFounded(c: Context)
    requires c.root == PyDict(map["$ref" := PyStr("#")])
    ensures !WellFounded(c)
  {
    assert Pointer(c, PyStr("#")) == Some(c.root);
    assert SameInstance(c, c.root, c.root);
    assert Chain(c, [c.root, c.root]);
    assert [c.root, c.root][0] == c.root == [c.root, c.root][1];
    assert OnCycle(c, c.root);
    assert Path(c, [c.root]) && [c.root][0] == c.root;
    assert Reachable(c, c.root);
  }

  /**
   Needed for the validator to come back from `s` with so many calls on the stack:
   it follows a reference that resolves before it looks at the instance at all.
   */
  ghost predicate ReturnsWithin(c: Context, s: Value, depth: nat)
    decreases depth
  {
    depth > 0 && (Target(c, s).Some? ==> ReturnsWithin(c, Target(c, s).value, depth - 1))
  }

  /** Schemas that only ever refer to one another: no stack is deep enough, for any instance. */
  lemma {:induction false} ReferenceLoopNeverReturns(c: Context, loop: set<Value>, s: Value, depth: nat)
    requires forall t :: t in loop ==> Target(c, t).Some? && Target(c, t).value in loop
    requires s in loop
    ensures !ReturnsWithin(c, s, depth)
    decreases depth
  {
    hide Target;
    if depth > 0 {
      ReferenceLoopNeverReturns(c, loop, Target(c, s).value, depth - 1);
    }
  }

  lemma SelfReferenceNeverReturns(c: Context, depth: nat)
    requires c.root == PyDict(map["$ref" := PyStr("#")])
    ensures !ReturnsWithin(c, c.root, depth)
  {
    assert Pointer(c, PyStr("#")) == Some(c.root);
    assert Target(c, c.root) == Some(c.root);
    ReferenceLoopNeverReturns(c, {c.root}, c.root, depth);
  }

  /** A loop through `then` alone is none: without `if` the code never applies it. */
  lemma ThenAloneIsWellFounded(c: Context)
    requires c.root == PyDict(map["then" := PyDict(map["$ref" := PyStr("#")])])
    ensures WellFounded(c)
  {
    NothingApplied(c);
    hide Applies, SameInstance, OperandsOk, Path, Chain, OnCycle;
    forall s | Reachable(c, s)
      ensures OperandsOk(s) && !OnCycle(c, s)
    {
      var p :| Path(c, p) && p[0] == c.root && p[|p| - 1] == s;
      FirstStep(c, p);
      CycleStarts(c, s);
    }
  }

  lemma FirstStep(c: Context, p: seq<Value>)
    requires Path(c, p)
    ensures |p| > 1 ==> exists t :: Applies(c, p[0], t)
  {
    hide Applies;
    if |p| > 1 {
      assert Applies(c, p[1 - 1], p[1]);
    }
  }

  lemma CycleStarts(c: Context, s: Value)
    ensures OnCycle(c, s) ==> exists t :: SameInstance(c, s, t)
  {
    hide SameInstance;
    if OnCycle(c, s) {
      var p :| Chain(c, p) && |p| >= 2 && p[0] == s && p[|p| - 1] == s;
      assert SameInstance(c, p[1 - 1], p[1]);
    }
  }

  lemma NothingApplied(c: Context)
    requires c.root == PyDict(map["then" := PyDict(map["$ref" := PyStr("#")])])
    ensures forall t :: !Applies(c, c.root, t) && !SameInstance(c, c.root, t)
    ensures OperandsOk(c.root)
  {
    hide Pointer;
    assert forall key :: key != "then" ==> Get(c.root, key).None?;
  }

  /** The instance satisfies the document. */
  ghost predicate Satisfies(c: Context, inst: Value)
    requires WellFounded(c)
  {
    RankedExactlyWhenWellFounded(c);
    Valid(c, Schemas(c), Height(c), inst, c.root)
  }
}
