/** The model locator: a depth-first search over the host's object graph
    for the first object whose `step_history` is an array. Objects are
    nodes named by their index; each node lists the values of its
    enumerable properties in enumeration order. */
module Locator {
  import opened Wrappers
  import opened Stones

  /** Reading the object's fields: either the values read (`stepHistory`
      is `None` when `step_history` is not an array), or the read of
      `step_history` throws. */
  datatype Probe = Readable(fields: GameModel) | ProbeThrows

  /** The value of one enumerable property. */
  datatype Edge =
    | ObjectRef(target: nat)  // an object (typeof 'object', not null)
    | NonObject               // null, undefined, a primitive or a function
    | GetterThrows            // reading the property throws

  datatype Node = Node(probe: Probe, children: seq<Edge>)

  /** A heap of objects; an object reference is an index. */
  type Graph = seq<Node>

  /** Every object reference names a node. */
  ghost predicate WellFormed(g: Graph) {
    forall n, k :: 0 <= n < |g| && 0 <= k < |g[n].children| && g[n].children[k].ObjectRef?
                   ==> g[n].children[k].target < |g|
  }

  /** The names of the graph's nodes. */
  function Ids(g: Graph): (ids: set<nat>)
    ensures forall n: int :: n in ids <==> 0 <= n < |g|
  {
    Below(|g|)
  }

  function Below(bound: nat): (ids: set<nat>)
    ensures forall n: int :: n in ids <==> 0 <= n < bound
  {
    if bound == 0 then {} else Below(bound - 1) + {bound - 1}
  }

  /** Node `n` holds an array `step_history`. */
  predicate IsStoneModel(g: Graph, n: nat) {
    n < |g| && g[n].probe.Readable? && g[n].probe.fields.stepHistory.Some?
  }

  /** The search, once at node `n`, goes on into its properties. */
  predicate Descends(g: Graph, n: nat) {
    n < |g| && g[n].probe.Readable? && g[n].probe.fields.stepHistory.None?
  }

  /** Every object a descended node refers to through a readable property
      lies in `s`. */
  ghost predicate Expanded(g: Graph, n: nat, s: set<nat>) {
    Descends(g, n) ==>
      forall k :: 0 <= k < |g[n].children| && g[n].children[k].ObjectRef? ==> g[n].children[k].target in s
  }

  /** What a search returns: the node found, the visited set afterwards,
      and the nodes it added to that set, in the order it added them. */
  datatype Outcome = Outcome(found: Option<nat>, visited: set<nat>, order: seq<nat>)

  /** The depth-first search from `id`, as a function: a node already
      visited yields nothing; otherwise it is visited, and the result is the
      node itself when its `step_history` read throws (nothing) or is an
      array, or else the first result of its object properties searched in
      enumeration order. */
  ghost function Dfs(g: Graph, id: nat, visited: set<nat>): (o: Outcome)
    requires WellFormed(g) && id < |g| && visited <= Ids(g)
    ensures visited <= o.visited <= Ids(g)
    decreases Ids(g) - visited, 1
  {
    if id in visited then Outcome(None, visited, [])
    else if g[id].probe.ProbeThrows? then Outcome(None, visited + {id}, [id])
    else if g[id].probe.fields.stepHistory.Some? then Outcome(Some(id), visited + {id}, [id])
    else
      var rest := DfsChildren(g, id, 0, visited + {id});
      Outcome(rest.found, rest.visited, [id] + rest.order)
  }

  /** The search over the properties of `id` from the `k`-th on: the first
      property whose search finds something decides. */
  ghost function DfsChildren(g: Graph, id: nat, k: nat, visited: set<nat>): (o: Outcome)
    requires WellFormed(g) && id < |g| && k <= |g[id].children| && visited <= Ids(g)
    ensures visited <= o.visited <= Ids(g)
    decreases Ids(g) - visited, 2, |g[id].children| - k
  {
    if k == |g[id].children| then Outcome(None, visited, [])
    else match g[id].children[k]
      case ObjectRef(t) =>
        var sub := Dfs(g, t, visited);
        if sub.found.Some? then sub
        else
          var rest := DfsChildren(g, id, k + 1, sub.visited);
          Outcome(rest.found, rest.visited, sub.order + rest.order)
      case _ => DfsChildren(g, id, k + 1, visited)
  }

  /** A chain of references the search can follow: every node but the last
      is descended into, and refers to the next through a readable
      property. */
  ghost predicate IsPath(g: Graph, p: seq<nat>) {
    && |p| > 0
    && p[|p| - 1] < |g|
    && forall i :: 0 <= i < |p| - 1 ==> Descends(g, p[i]) && ObjectRef(p[i + 1]) in g[p[i]].children
  }

  ghost predicate Reachable(g: Graph, a: nat, b: nat) {
    exists p :: IsPath(g, p) && p[0] == a && p[|p| - 1] == b
  }

  ghost predicate Distinct(s: seq<nat>) {
    forall i, j :: 0 <= i < j < |s| ==> s[i] != s[j]
  }

  lemma PathCons(g: Graph, a: nat, p: seq<nat>)
    requires IsPath(g, p) && Descends(g, a) && ObjectRef(p[0]) in g[a].children
    ensures IsPath(g, [a] + p)
  {
    var q := [a] + p;
    forall i | 0 <= i < |q| - 1 ensures Descends(g, q[i]) && ObjectRef(q[i + 1]) in g[q[i]].children {
      if i > 0 {
        assert q[i] == p[i - 1] && q[i + 1] == p[i];
      }
    }
  }

  /** A node reaches every node its readable object properties reach. */
  lemma ReachableThrough(g: Graph, a: nat, t: nat, n: nat)
    requires Descends(g, a) && ObjectRef(t) in g[a].children && Reachable(g, t, n)
    ensures Reachable(g, a, n)
  {
    var p :| IsPath(g, p) && p[0] == t && p[|p| - 1] == n;
    PathCons(g, a, p);
    assert ([a] + p)[|[a] + p| - 1] == n;
  }

  /** Every node of a path from inside a set closed under expansion, whose
      nodes are no stone models, lies inside the set. */
  lemma {:induction false} PathStaysInside(g: Graph, p: seq<nat>, s: set<nat>, k: nat)
    requires IsPath(g, p) && p[0] in s && k < |p|
    requires forall n :: n in s ==> Expanded(g, n, s)
    ensures p[k] in s
  {
    if k > 0 {
      PathStaysInside(g, p, s, k - 1);
      assert Descends(g, p[k - 1]) && ObjectRef(p[k]) in g[p[k - 1]].children;
      var j :| 0 <= j < |g[p[k - 1]].children| && g[p[k - 1]].children[j] == ObjectRef(p[k]);
      assert Expanded(g, p[k - 1], s);
    }
  }

  /** `order` lists, each once, the nodes a search added to `visited` to
      reach `visited'`. */
  ghost predicate Visits(g: Graph, visited: set<nat>, visited': set<nat>, order: seq<nat>) {
    && visited' == visited + (set n | n in order)
    && visited' <= Ids(g)
    && Distinct(order)
    && forall i :: 0 <= i < |order| ==> order[i] !in visited
  }

  /** First-match: a result is the last node visited and holds an array
      `step_history`, and no node visited before it does; no result means
      no visited node does. */
  ghost predicate FirstMatch(g: Graph, r: Option<nat>, order: seq<nat>) {
    && (r.Some? ==> |order| > 0 && r.value == order[|order| - 1] && IsStoneModel(g, r.value))
    && (forall i :: 0 <= i < |order| - 1 ==> !IsStoneModel(g, order[i]))
    && (r.None? ==> forall i :: 0 <= i < |order| ==> !IsStoneModel(g, order[i]))
  }

  ghost predicate AllReachable(g: Graph, id: nat, order: seq<nat>) {
    forall i :: 0 <= i < |order| ==> Reachable(g, id, order[i])
  }

  ghost predicate AllExpanded(g: Graph, order: seq<nat>, s: set<nat>) {
    forall i :: 0 <= i < |order| ==> Expanded(g, order[i], s)
  }

  lemma VisitsConcat(g: Graph, v0: set<nat>, v1: set<nat>, v2: set<nat>, o1: seq<nat>, o2: seq<nat>)
    requires Visits(g, v0, v1, o1) && Visits(g, v1, v2, o2)
    ensures Visits(g, v0, v2, o1 + o2)
  {
    var o := o1 + o2;
    assert (set n | n in o) == (set n | n in o1) + (set n | n in o2);
    forall i, j | 0 <= i < j < |o| ensures o[i] != o[j] {
      if j >= |o1| && i < |o1| {
        assert o[i] in v1;
      }
    }
  }

  lemma ReachableConcat(g: Graph, id: nat, t: nat, o1: seq<nat>, o2: seq<nat>)
    requires AllReachable(g, id, o1) && AllReachable(g, t, o2)
    requires Descends(g, id) && ObjectRef(t) in g[id].children
    ensures AllReachable(g, id, o1 + o2)
  {
    forall i | 0 <= i < |o1 + o2| ensures Reachable(g, id, (o1 + o2)[i]) {
      if i >= |o1| {
        ReachableThrough(g, id, t, o2[i - |o1|]);
      }
    }
  }

  lemma FirstMatchConcat(g: Graph, r: Option<nat>, o1: seq<nat>, o2: seq<nat>)
    requires FirstMatch(g, None, o1) && FirstMatch(g, r, o2)
    ensures FirstMatch(g, r, o1 + o2)
  {
    var o := o1 + o2;
    forall i | 0 <= i < |o| - 1 ensures !IsStoneModel(g, o[i]) {
      if i >= |o1| {
        assert o[i] == o2[i - |o1|];
      }
    }
    if r.None? {
      forall i | 0 <= i < |o| ensures !IsStoneModel(g, o[i]) {
        if i >= |o1| {
          assert o[i] == o2[i - |o1|];
        }
      }
    }
  }

  lemma ExpandedGrows(g: Graph, o1: seq<nat>, o2: seq<nat>, s: set<nat>, s': set<nat>)
    requires AllExpanded(g, o1, s) && AllExpanded(g, o2, s') && s <= s'
    ensures AllExpanded(g, o1 + o2, s')
  {
    forall i | 0 <= i < |o1 + o2| ensures Expanded(g, (o1 + o2)[i], s') {
      if i < |o1| {
        assert Expanded(g, o1[i], s);
      } else {
        assert (o1 + o2)[i] == o2[i - |o1|];
      }
    }
  }

  /** What the search from `id` has established part-way through its loop
      over the properties: `tail` lists the nodes the child searches
      visited. */
  ghost predicate Progress(g: Graph, id: nat, visited: set<nat>, visited': set<nat>, order: seq<nat>, tail: seq<nat>) {
    && visited + {id} <= visited'
    && order == [id] + tail
    && Visits(g, visited, visited', order)
    && AllReachable(g, id, order)
    && FirstMatch(g, None, order)
    && AllExpanded(g, tail, visited')
  }

  /** One child search, from a node `id` refers to, extends the progress of
      the search from `id`. */
  lemma ProgressStep(g: Graph, id: nat, t: nat, visited: set<nat>, v1: set<nat>, order: seq<nat>, tail: seq<nat>,
                     found: Option<nat>, seen: set<nat>, sub: seq<nat>)
    requires Progress(g, id, visited, v1, order, tail)
    requires Descends(g, id) && ObjectRef(t) in g[id].children
    requires Visits(g, v1, seen, sub) && AllReachable(g, t, sub) && FirstMatch(g, found, sub)
    requires found.None? ==> AllExpanded(g, sub, seen)
    ensures v1 <= seen
    ensures Visits(g, visited, seen, order + sub) && AllReachable(g, id, order + sub)
    ensures FirstMatch(g, found, order + sub)
    ensures found.None? ==> Progress(g, id, visited, seen, order + sub, tail + sub)
  {
    VisitsConcat(g, visited, v1, seen, order, sub);
    ReachableConcat(g, id, t, order, sub);
    FirstMatchConcat(g, found, order, sub);
    if found.None? {
      ExpandedGrows(g, tail, sub, v1, seen);
    }
  }

  /** Part-way through the loop over the properties of `id`, the search
      from `id` ends as the rest of that loop, from the `k`-th property on,
      continues what has been visited so far. */
  ghost predicate Resumes(g: Graph, id: nat, visited: set<nat>, k: nat, visited': set<nat>, order: seq<nat>)
    requires WellFormed(g) && id < |g| && visited <= Ids(g)
  {
    && k <= |g[id].children|
    && visited' <= Ids(g)
    && var rest := DfsChildren(g, id, k, visited');
       Dfs(g, id, visited) == Outcome(rest.found, rest.visited, order + rest.order)
  }

  lemma ResumesStart(g: Graph, id: nat, visited: set<nat>)
    requires WellFormed(g) && id < |g| && visited <= Ids(g)
    requires id !in visited && Descends(g, id)
    ensures Resumes(g, id, visited, 0, visited + {id}, [id])
  {
  }

  /** A property that refers to an object: the child search either finds
      something, which ends the search from `id`, or the loop goes on from
      where it left the visited set. */
  lemma ResumesObject(g: Graph, id: nat, visited: set<nat>, k: nat, v: set<nat>, order: seq<nat>,
                      t: nat, sub: Outcome)
    requires WellFormed(g) && id < |g| && visited <= Ids(g)
    requires Resumes(g, id, visited, k, v, order)
    requires k < |g[id].children| && g[id].children[k] == ObjectRef(t) && t < |g|
    requires sub == Dfs(g, t, v)
    ensures sub.found.Some? ==> Dfs(g, id, visited) == Outcome(sub.found, sub.visited, order + sub.order)
    ensures sub.found.None? ==> Resumes(g, id, visited, k + 1, sub.visited, order + sub.order)
  {
    if sub.found.None? {
      var rest := DfsChildren(g, id, k + 1, sub.visited);
      assert order + (sub.order + rest.order) == (order + sub.order) + rest.order;
    }
  }

  /** A property that is no object, or whose getter throws, is skipped. */
  lemma ResumesOther(g: Graph, id: nat, visited: set<nat>, k: nat, v: set<nat>, order: seq<nat>)
    requires WellFormed(g) && id < |g| && visited <= Ids(g)
    requires Resumes(g, id, visited, k, v, order)
    requires k < |g[id].children| && !g[id].children[k].ObjectRef?
    ensures Resumes(g, id, visited, k + 1, v, order)
  {
  }

  lemma ResumesEnd(g: Graph, id: nat, visited: set<nat>, v: set<nat>, order: seq<nat>)
    requires WellFormed(g) && id < |g| && visited <= Ids(g)
    requires Resumes(g, id, visited, |g[id].children|, v, order)
    ensures Dfs(g, id, visited) == Outcome(None, v, order)
  {
    assert order + [] == order;
  }

  /** Every object the first `k` properties of `id` refer to lies in `s`. */
  ghost predicate ChildrenVisited(g: Graph, id: nat, k: nat, s: set<nat>)
    requires id < |g|
  {
    forall j :: 0 <= j < k && j < |g[id].children| && g[id].children[j].ObjectRef? ==> g[id].children[j].target in s
  }

  lemma ChildrenVisitedStep(g: Graph, id: nat, k: nat, s: set<nat>, s': set<nat>)
    requires id < |g| && k < |g[id].children| && ChildrenVisited(g, id, k, s) && s <= s'
    requires g[id].children[k].ObjectRef? ==> g[id].children[k].target in s'
    ensures ChildrenVisited(g, id, k + 1, s')
  {
  }

  /** The search from node `id`, given the objects already visited: it
      returns the first visited node whose `step_history` is an array, the
      visited set after the search, and (as a record for the proof) the
      nodes it visited, in the order it visited them. */
  method Search(g: Graph, id: nat, visited: set<nat>)
    returns (r: Option<nat>, visited': set<nat>, ghost order: seq<nat>)
    requires WellFormed(g) && id < |g| && visited <= Ids(g)
    ensures Visits(g, visited, visited', order) && id in visited'
    ensures id in visited ==> r.None? && order == []
    ensures id !in visited ==> |order| > 0 && order[0] == id
    ensures AllReachable(g, id, order)
    ensures FirstMatch(g, r, order)
    ensures r.None? ==> AllExpanded(g, order, visited')
    ensures Outcome(r, visited', order) == Dfs(g, id, visited)
    decreases Ids(g) - visited
  {
    if id in visited {
      return None, visited, [];
    }
    visited' := visited + {id};
    order := [id];
    assert IsPath(g, [id]);
    assert (set n | n in order) == {id};
    var node := g[id];
    if node.probe.ProbeThrows? {
      // The exception reaches the caller's catch: this branch yields nothing.
      return None, visited', order;
    }
    if node.probe.fields.stepHistory.Some? {
      return Some(id), visited', order;
    }
    ghost var tail: seq<nat> := [];
    ResumesStart(g, id, visited);
    for k := 0 to |node.children|
      invariant Progress(g, id, visited, visited', order, tail)
      invariant Resumes(g, id, visited, k, visited', order)
      invariant ChildrenVisited(g, id, k, visited')
    {
      match node.children[k]
      case ObjectRef(t) =>
        assert id in Ids(g) - visited && id !in Ids(g) - visited';
        var found, seen, sub := Search(g, t, visited');
        ProgressStep(g, id, t, visited, visited', order, tail, found, seen, sub);
        ResumesObject(g, id, visited, k, visited', order, t, Outcome(found, seen, sub));
        ChildrenVisitedStep(g, id, k, visited', seen);
        if found.Some? {
          return found, seen, order + sub;
        }
        visited' := seen;
        order := order + sub;
        tail := tail + sub;
      case NonObject =>
        ResumesOther(g, id, visited, k, visited', order);
        ChildrenVisitedStep(g, id, k, visited', visited');
      case GetterThrows =>
        // The catch swallows it and the loop moves on to the next key.
        ResumesOther(g, id, visited, k, visited', order);
        ChildrenVisitedStep(g, id, k, visited', visited');
    }
    ResumesEnd(g, id, visited, visited', order);
    assert Expanded(g, id, visited');
    ExpandedGrows(g, [id], tail, visited', visited');
    r := None;
  }

  /** Discovery from the root: the result is the first node, in
      depth-first enumeration order, whose `step_history` is an array; any
      result is reachable from the root; no result means no node the search
      can reach holds one. */
  method FindStoneModel(g: Graph, root: nat) returns (r: Option<nat>)
    requires WellFormed(g) && root < |g|
    ensures r == Dfs(g, root, {}).found
    ensures FirstMatch(g, r, Dfs(g, root, {}).order) && Dfs(g, root, {}).order[0] == root
    ensures r.Some? ==> IsStoneModel(g, r.value) && Reachable(g, root, r.value)
    ensures r.None? ==> forall p :: IsPath(g, p) && p[0] == root ==> !IsStoneModel(g, p[|p| - 1])
  {
    var seen;
    ghost var order;
    r, seen, order := Search(g, root, {});
    if r.None? {
      forall p | IsPath(g, p) && p[0] == root ensures !IsStoneModel(g, p[|p| - 1]) {
        forall n | n in seen ensures Expanded(g, n, seen) {
          var i :| 0 <= i < |order| && order[i] == n;
          assert AllExpanded(g, order, seen);
        }
        PathStaysInside(g, p, seen, |p| - 1);
        var i :| 0 <= i < |order| && order[i] == p[|p| - 1];
      }
    }
  }

  /** An object whose only property refers to itself: the search ends and
      finds nothing. */
  method SelfReferenceExample() returns (r: Option<nat>)
    ensures r == None
  {
    var g := [Node(Readable(GameModel(None, None, false)), [ObjectRef(0), GetterThrows])];
    r := FindStoneModel(g, 0);
  }

  /** A cycle between the root and a throwing getter in front of the model:
      the search goes past both and finds the model. */
  method CycleBeforeModelExample() returns (r: Option<nat>)
    ensures r == Some(1)
  {
    var plain := GameModel(None, None, false);
    var g := [Node(Readable(plain), [ObjectRef(0), GetterThrows, NonObject, ObjectRef(1)]),
              Node(Readable(GameModel(Some([]), None, true)), [])];
    r := FindStoneModel(g, 0);
    assert IsPath(g, [0, 1]) by {
      assert ObjectRef(1) in g[0].children;
    }
  }

  /** A root whose first property leads to one model and whose second
      refers to another: the first in enumeration order is returned. */
  method FirstOfTwoExample() returns (r: Option<nat>)
    ensures r == Some(1)
  {
    var plain := GameModel(None, None, false);
    var model := GameModel(Some([]), None, true);
    var g := [Node(Readable(plain), [ObjectRef(1), ObjectRef(2)]),
              Node(Readable(model), []),
              Node(Readable(model), [])];
    r := FindStoneModel(g, 0);
    assert Dfs(g, 1, {0}) == Outcome(Some(1), {0, 1}, [1]);
    assert DfsChildren(g, 0, 0, {0}).found == Some(1);
    assert {} + {0} == {0};
  }
}
