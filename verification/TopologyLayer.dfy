/**
 The memoised topology layer of a subtask: `deriveTopologyLayer` of
 src/execution/subtask-attempt-runner.ts.
 */
module TopologyLayer {
  import opened Prelude

  type Id(==, !new)

  /** A subtask and the subtasks it depends on. */
  datatype Subtask = Subtask(id: Id, dependencies: seq<Id>)

  type Graph = map<Id, seq<Id>>

  predicate Edge(g: Graph, a: Id, b: Id) {
    a in g && b in g[a]
  }

  predicate StepAt(g: Graph, p: seq<Id>, k: nat)
    requires k < |p| - 1
  {
    Edge(g, p[k], p[k + 1])
  }

  /** A walk along dependencies; an unknown id is its last step. */
  predicate IsPath(g: Graph, p: seq<Id>) {
    p != [] && forall k :: 0 <= k < |p| - 1 ==> StepAt(g, p, k)
  }

  predicate StartsAt(g: Graph, p: seq<Id>, id: Id) {
    IsPath(g, p) && p[0] == id
  }

  predicate Repeats(p: seq<Id>) {
    exists i, j :: 0 <= i < j < |p| && p[i] == p[j]
  }

  /** A dependency cycle can be reached from the id. */
  ghost predicate ReachesCycle(g: Graph, id: Id) {
    exists p :: StartsAt(g, p, id) && Repeats(p)
  }

  ghost predicate HasPath(g: Graph, id: Id, length: nat) {
    exists p :: StartsAt(g, p, id) && |p| == length + 1
  }

  /** The longest dependency path from the id has this many edges. */
  ghost predicate IsLayer(g: Graph, id: Id, layer: nat) {
    HasPath(g, id, layer) && forall p :: StartsAt(g, p, id) ==> |p| <= layer + 1
  }

  lemma PathFromDependency(g: Graph, id: Id, p: seq<Id>)
    requires IsPath(g, p) && Edge(g, id, p[0])
    ensures IsPath(g, [id] + p)
  {
    var q := [id] + p;
    forall k | 0 <= k < |q| - 1
      ensures StepAt(g, q, k)
    {
      if k > 0 {
        assert StepAt(g, p, k - 1) && q[k] == p[k - 1] && q[k + 1] == p[k];
      }
    }
  }

  lemma CycleFromDependency(g: Graph, id: Id, d: Id)
    requires Edge(g, id, d) && ReachesCycle(g, d)
    ensures ReachesCycle(g, id)
  {
    var p :| StartsAt(g, p, d) && Repeats(p);
    var i, j :| 0 <= i < j < |p| && p[i] == p[j];
    PathFromDependency(g, id, p);
    assert ([id] + p)[i + 1] == ([id] + p)[j + 1];
    assert StartsAt(g, [id] + p, id);
  }

  ghost predicate Reaches(g: Graph, a: Id, b: Id) {
    exists p :: StartsAt(g, p, a) && |p| > 1 && p[|p| - 1] == b
  }

  /** The ids being visited lead to `id`. */
  ghost predicate AllReach(g: Graph, visiting: set<Id>, id: Id) {
    forall x {:trigger Reaches(g, x, id)} :: x in visiting ==> Reaches(g, x, id)
  }

  lemma VisitingClosesCycle(g: Graph, visiting: set<Id>, id: Id)
    requires AllReach(g, visiting, id) && id in visiting
    ensures ReachesCycle(g, id)
  {
    assert Reaches(g, id, id);
    var p :| StartsAt(g, p, id) && |p| > 1 && p[|p| - 1] == id;
    assert p[0] == p[|p| - 1];
  }

  lemma ReachesFurther(g: Graph, p: seq<Id>, id: Id, dependency: Id)
    requires IsPath(g, p) && p[|p| - 1] == id && Edge(g, id, dependency)
    ensures Reaches(g, p[0], dependency)
  {
    var q := p + [dependency];
    forall k | 0 <= k < |q| - 1
      ensures StepAt(g, q, k)
    {
      assert k < |p| - 1 ==> StepAt(g, p, k);
    }
    assert IsPath(g, q) && q[|q| - 1] == dependency;
  }

  /** All of them reach `id`, which is one of them. */
  ghost predicate AllReachOne(g: Graph, visiting: set<Id>, id: Id) {
    forall x {:trigger Reaches(g, x, id)} :: x in visiting && x != id ==> Reaches(g, x, id)
  }

  lemma AllReachDependency(g: Graph, visiting: set<Id>, id: Id, dependency: Id)
    requires AllReachOne(g, visiting, id) && Edge(g, id, dependency)
    ensures AllReach(g, visiting, dependency)
  {
    forall x | x in visiting
      ensures Reaches(g, x, dependency)
    {
      if x == id {
        assert IsPath(g, [id]);
        ReachesFurther(g, [id], id, dependency);
      } else {
        assert Reaches(g, x, id);
        var p :| StartsAt(g, p, x) && |p| > 1 && p[|p| - 1] == id;
        ReachesFurther(g, p, id, dependency);
      }
    }
  }

  lemma LayerOfUnknown(g: Graph, id: Id)
    requires id !in g
    ensures IsLayer(g, id, 0)
  {
    assert IsPath(g, [id]);
    forall p | StartsAt(g, p, id)
      ensures |p| <= 1
    {
      assert |p| > 1 ==> StepAt(g, p, 0);
    }
  }

  ghost predicate IsAttained(layers: map<Id, nat>, dependencies: seq<Id>, n: nat, maximum: nat)
    requires n <= |dependencies|
  {
    exists k :: 0 <= k < n && dependencies[k] in layers && layers[dependencies[k]] + 1 == maximum
  }

  /** One more than the largest layer of the first `n` dependencies, or zero. */
  ghost predicate IsMaximum(layers: map<Id, nat>, dependencies: seq<Id>, n: nat, maximum: nat)
    requires n <= |dependencies|
  {
    && (forall k :: 0 <= k < n ==> dependencies[k] in layers && layers[dependencies[k]] + 1 <= maximum)
    && (maximum > 0 ==> IsAttained(layers, dependencies, n, maximum))
  }

  ghost predicate AreLayers(g: Graph, layers: map<Id, nat>) {
    forall id {:trigger IsLayer(g, id, layers[id])} :: id in layers ==> IsLayer(g, id, layers[id])
  }

  lemma LayerOfKnown(g: Graph, id: Id, layers: map<Id, nat>, maximum: nat)
    requires id in g && AreLayers(g, layers) && IsMaximum(layers, g[id], |g[id]|, maximum)
    ensures IsLayer(g, id, maximum)
  {
    if maximum == 0 {
      assert IsPath(g, [id]);
    } else {
      var k :| 0 <= k < |g[id]| && g[id][k] in layers && layers[g[id][k]] + 1 == maximum;
      var d := g[id][k];
      assert IsLayer(g, d, layers[d]);
      var p :| StartsAt(g, p, d) && |p| == layers[d] + 1;
      PathFromDependency(g, id, p);
    }
    forall p | StartsAt(g, p, id)
      ensures |p| <= maximum + 1
    {
      if |p| > 1 {
        assert StepAt(g, p, 0);
        assert IsLayer(g, p[1], layers[p[1]]);
        assert IsPath(g, p[1..]) by {
          forall k | 0 <= k < |p[1..]| - 1
            ensures StepAt(g, p[1..], k)
          {
            assert StepAt(g, p, k + 1) && p[1..][k] == p[k + 1] && p[1..][k + 1] == p[k + 2];
          }
        }
      }
    }
  }

  // -------------------------------------------------------------- method

  /** The later of two subtasks with one id counts. */
  function ById(subtasks: seq<Subtask>): Graph {
    if subtasks == [] then map[]
    else
      var last := subtasks[|subtasks| - 1];
      ById(subtasks[..|subtasks| - 1])[last.id := last.dependencies]
  }

  function Ids(g: Graph): set<Id> {
    g.Keys + set id, d | id in g && d in g[id] :: d
  }

  predicate Extends(before: map<Id, nat>, after: map<Id, nat>) {
    forall x :: x in before ==> x in after && after[x] == before[x]
  }

  class Derivation {
    const byId: Graph
    var memo: map<Id, nat>
    var visiting: set<Id>

    constructor (byId: Graph)
      ensures this.byId == byId && memo == map[] && visiting == {}
    {
      this.byId := byId;
      memo := map[];
      visiting := {};
    }

    /** The layer of an id; None is the cycle exception. */
    method Visit(id: Id) returns (r: Option<nat>)
      requires AllReach(byId, visiting, id)
      requires AreLayers(byId, memo)
      modifies this
      ensures r.None? ==> ReachesCycle(byId, id)
      ensures r.Some? ==>
        && IsLayer(byId, id, r.value) && AreLayers(byId, memo)
        && visiting == old(visiting)
        && id in memo && memo[id] == r.value && Extends(old(memo), memo)
      decreases |Ids(byId) + {id} - visiting|, 0
    {
      if id in memo {
        assert IsLayer(byId, id, memo[id]);
        return Some(memo[id]);
      }
      if id in visiting {
        VisitingClosesCycle(byId, visiting, id);
        return None;
      }
      visiting := visiting + {id};
      var layer: nat := 0;
      if id in byId {
        FewerLeft(byId, old(visiting), id);
        var deepest := VisitEach(id);
        if deepest.None? { return None; }
        layer := deepest.value;
        LayerOfKnown(byId, id, memo, layer);
      } else {
        LayerOfUnknown(byId, id);
      }
      MemoGrows(byId, old(memo), memo, id, layer);
      visiting := visiting - {id};
      memo := memo[id := layer];
      return Some(layer);
    }

    /** The `reduce` over the dependencies. */
    method VisitEach(id: Id) returns (r: Option<nat>)
      requires id in byId && AllReachOne(byId, visiting, id)
      requires AreLayers(byId, memo)
      modifies this
      ensures r.None? ==> ReachesCycle(byId, id)
      ensures r.Some? ==>
        && AreLayers(byId, memo) && visiting == old(visiting) && Extends(old(memo), memo)
        && IsMaximum(memo, byId[id], |byId[id]|, r.value)
      decreases |Ids(byId) - visiting|, 1
    {
      var dependencies := byId[id];
      var layer: nat := 0;
      var i := 0;
      while i < |dependencies|
        invariant 0 <= i <= |dependencies|
        invariant visiting == old(visiting)
        invariant AreLayers(byId, memo)
        invariant Extends(old(memo), memo)
        invariant IsMaximum(memo, dependencies, i, layer)
      {
        var dependency := dependencies[i];
        AllReachDependency(byId, visiting, id, dependency);
        AsManyLeft(byId, visiting, id, dependency);
        ghost var before := memo;
        var below := Visit(dependency);
        if below.None? {
          CycleFromDependency(byId, id, dependency);
          return None;
        }
        MaximumGrows(before, memo, dependencies, i, layer);
        layer := if below.value + 1 > layer then below.value + 1 else layer;
        i := i + 1;
      }
      return Some(layer);
    }
  }

  lemma MemoGrows(g: Graph, before: map<Id, nat>, memo: map<Id, nat>, id: Id, layer: nat)
    requires AreLayers(g, memo) && IsLayer(g, id, layer) && Extends(before, memo) && id !in before
    ensures AreLayers(g, memo[id := layer]) && Extends(before, memo[id := layer])
  {
  }

  lemma FewerLeft(g: Graph, visiting: set<Id>, id: Id)
    requires id !in visiting && id in g
    ensures |Ids(g) - (visiting + {id})| < |Ids(g) + {id} - visiting|
  {
    var before, after := Ids(g) + {id} - visiting, Ids(g) - (visiting + {id});
    assert after <= before - {id};
    SubsetIsSmaller(after, before - {id});
  }

  lemma AsManyLeft(g: Graph, visiting: set<Id>, id: Id, dependency: Id)
    requires Edge(g, id, dependency)
    ensures |Ids(g) + {dependency} - visiting| == |Ids(g) - visiting|
  {
    assert dependency in Ids(g);
    assert Ids(g) + {dependency} == Ids(g);
  }

  lemma SubsetIsSmaller(a: set<Id>, b: set<Id>)
    requires a <= b
    ensures |a| <= |b|
  {
    assert b == a + (b - a);
  }

  lemma MaximumGrows(before: map<Id, nat>, after: map<Id, nat>, dependencies: seq<Id>, i: nat, maximum: nat)
    requires i < |dependencies| && IsMaximum(before, dependencies, i, maximum)
    requires dependencies[i] in after
    requires Extends(before, after)
    ensures var more := after[dependencies[i]] + 1;
            IsMaximum(after, dependencies, i + 1, if more > maximum then more else maximum)
  {
    var more := after[dependencies[i]] + 1;
    if 0 < maximum && more <= maximum {
      var k :| 0 <= k < i && dependencies[k] in before && before[dependencies[k]] + 1 == maximum;
      assert after[dependencies[k]] + 1 == maximum;
    }
  }

  /** Throws exactly when a dependency cycle can be reached from the subtask;
      otherwise it is the length of its longest dependency path. */
  method DeriveTopologyLayer(subtaskId: Id, subtasks: seq<Subtask>) returns (layer: Option<nat>)
    ensures layer.None? <==> ReachesCycle(ById(subtasks), subtaskId)
    ensures layer.Some? ==> IsLayer(ById(subtasks), subtaskId, layer.value)
  {
    var byId: Graph := map[];
    var i := 0;
    while i < |subtasks|
      invariant 0 <= i <= |subtasks|
      invariant byId == ById(subtasks[..i])
    {
      assert subtasks[..i + 1][..i] == subtasks[..i];
      byId := byId[subtasks[i].id := subtasks[i].dependencies];
      i := i + 1;
    }
    assert subtasks[..i] == subtasks;
    var derivation := new Derivation(byId);
    layer := derivation.Visit(subtaskId);
    if layer.Some? {
      LayeredHasNoCycle(byId, subtaskId, layer.value);
    }
  }

  // -------------------------------------------------------------- meaning

  /** A cycle makes paths of every length. */
  lemma {:induction false} CyclePumps(g: Graph, id: Id, length: nat)
    requires ReachesCycle(g, id)
    ensures exists p :: StartsAt(g, p, id) && Repeats(p) && |p| > length
    decreases length
  {
    if length > 0 {
      CyclePumps(g, id, length - 1);
      var p :| StartsAt(g, p, id) && Repeats(p) && |p| > length - 1;
      var i, j :| 0 <= i < j < |p| && p[i] == p[j];
      var longer := p[..j] + p[i..];
      forall k | 0 <= k < |longer| - 1
        ensures StepAt(g, longer, k)
      {
        if k < j - 1 {
          assert StepAt(g, p, k) && longer[k] == p[k] && longer[k + 1] == p[k + 1];
        } else if k == j - 1 {
          assert StepAt(g, p, j - 1) && longer[k] == p[j - 1] && longer[k + 1] == p[i] == p[j];
        } else {
          assert StepAt(g, p, k - j + i) && longer[k] == p[k - j + i] && longer[k + 1] == p[k + 1 - j + i];
        }
      }
      assert longer[i] == p[i] == longer[j];
      assert StartsAt(g, longer, id) && Repeats(longer) && |longer| > length;
    } else {
      var p :| StartsAt(g, p, id) && Repeats(p);
      assert |p| > length;
    }
  }

  lemma LayeredHasNoCycle(g: Graph, id: Id, layer: nat)
    requires IsLayer(g, id, layer)
    ensures !ReachesCycle(g, id)
  {
    if ReachesCycle(g, id) {
      CyclePumps(g, id, layer + 1);
      assert false;
    }
  }

  /** Layers strictly increase along every dependency, whichever subtask each
      of the two calls started from. */
  lemma LayersIncrease(g: Graph, a: Id, b: Id, layerA: nat, layerB: nat)
    requires Edge(g, a, b) && IsLayer(g, a, layerA) && IsLayer(g, b, layerB)
    ensures layerB < layerA
  {
    var p :| StartsAt(g, p, b) && |p| == layerB + 1;
    PathFromDependency(g, a, p);
    assert |[a] + p| <= layerA + 1;
  }

  /** The layer is a function of the graph alone. */
  lemma LayerIsUnique(g: Graph, id: Id, a: nat, b: nat)
    requires IsLayer(g, id, a) && IsLayer(g, id, b)
    ensures a == b
  {
    var p :| StartsAt(g, p, id) && |p| == a + 1;
    var q :| StartsAt(g, q, id) && |q| == b + 1;
  }
}
