/**
 The store of thread-spawn edges (agent/graph_store.go). Each child has at most one
 edge, so the edges passing a status filter form a parent relation. The breadth-first
 listing of descendants is proved against reachability over that relation.
 */
module SpawnGraph {
  import opened Common
  import opened Sorting
  import opened Ancestry

  datatype Status = Open | Closed

  datatype Edge = Edge(parent: string, child: string, status: Status)

  predicate Passes(edge: Edge, filter: Option<Status>) {
    filter.None? || edge.status == filter.value
  }

  /** The parent relation of the edges that pass the filter. */
  function FilteredParents(edges: map<string, Edge>, filter: Option<Status>): Parents {
    map child | child in edges && Passes(edges[child], filter) :: edges[child].parent
  }

  /** A chain of stored edges with the status asked for, from `x` up to `root`. */
  ghost predicate LeadsTo(edges: map<string, Edge>, filter: Option<Status>, chain: seq<string>, x: string, root: string) {
    && |chain| >= 2 && chain[0] == x && chain[|chain| - 1] == root
    && forall i :: 0 <= i < |chain| - 1 ==>
         chain[i] in edges && edges[chain[i]].parent == chain[i + 1] && (filter == None || filter == Some(edges[chain[i]].status))
  }

  lemma DescendsByEdges(edges: map<string, Edge>, filter: Option<Status>, x: string, root: string)
    ensures Descends(FilteredParents(edges, filter), x, root) <==> exists chain :: LeadsTo(edges, filter, chain, x, root)
  {
    var parents := FilteredParents(edges, filter);
    DescendsByChain(parents, x, root);
    if chain :| IsChain(parents, chain, x, root) { assert LeadsTo(edges, filter, chain, x, root); }
    if chain :| LeadsTo(edges, filter, chain, x, root) { assert IsChain(parents, chain, x, root); }
  }

  /** `listing` is in non-decreasing distance from the root, siblings in id order. */
  ghost predicate LevelOrdered(less: (string, string) -> bool, parents: Parents, root: string, listing: seq<string>)
    requires forall x :: x in listing ==> Descends(parents, x, root)
  {
    forall i, j | 0 <= i < j < |listing| ::
      && Distance(parents, listing[i], root) <= Distance(parents, listing[j], root)
      && (SameParent(parents, listing[i], listing[j]) ==> less(listing[i], listing[j]))
  }

  predicate SameParent(parents: Parents, x: string, y: string) {
    x in parents && y in parents && parents[x] == parents[y]
  }

  /** The children of one parent, in id order. */
  ghost predicate IsChildren(less: (string, string) -> bool, parents: Parents, p: string, children: seq<string>) {
    && StrictlySorted(children, less)
    && forall x :: x in children <==> x in parents && parents[x] == p
  }

  function Lookup(index: map<string, seq<string>>, p: string): seq<string> {
    if p in index then index[p] else []
  }

  ghost predicate Irreflexive(less: (string, string) -> bool) {
    forall x :: !less(x, x)
  }

  ghost predicate IsIndex(less: (string, string) -> bool, parents: Parents, index: map<string, seq<string>>) {
    forall p :: IsChildren(less, parents, p, Lookup(index, p))
  }

  /** While the index is built: the children of each parent among the edges visited. */
  ghost predicate Groups(parents: Parents, visited: set<string>, index: map<string, seq<string>>) {
    forall p :: IsGroup(parents, visited, p, Lookup(index, p))
  }

  ghost predicate IsGroup(parents: Parents, visited: set<string>, p: string, group: seq<string>) {
    NoDuplicates(group) && forall x :: x in group <==> x in visited && x in parents && parents[x] == p
  }

  lemma VisitEdge(parents: Parents, visited: set<string>, index: map<string, seq<string>>, child: string)
    requires Groups(parents, visited, index) && child !in visited
    ensures child !in parents ==> Groups(parents, visited + {child}, index)
    ensures child in parents ==> var p := parents[child];
      Groups(parents, visited + {child}, index[p := Lookup(index, p) + [child]])
  {
    var p := if child in parents then parents[child] else "";
    var index' := if child in parents then index[p := Lookup(index, p) + [child]] else index;
    forall q ensures IsGroup(parents, visited + {child}, q, Lookup(index', q)) {
      assert IsGroup(parents, visited, q, Lookup(index, q));
    }
  }

  lemma SortGroup(parents: Parents, p: string, group: seq<string>)
    requires IsGroup(parents, parents.Keys, p, group)
    ensures IsChildren(LexLess, parents, p, Sort(group, LexLess))
  {
    LexTotalOn(group);
    SortSorts(group, LexLess);
  }

  method SortLists(ghost parents: Parents, index: map<string, seq<string>>) returns (sorted: map<string, seq<string>>)
    requires forall p :: IsGroup(parents, parents.Keys, p, Lookup(index, p))
    ensures IsIndex(LexLess, parents, sorted)
  {
    sorted := map p | p in index :: Sort(index[p], LexLess);
    forall p ensures IsChildren(LexLess, parents, p, Lookup(sorted, p)) {
      SortGroup(parents, p, Lookup(index, p));
    }
  }

  class MemoryStore {
    var edges: map<string, Edge>

    ghost predicate Valid()
      reads this
    {
      forall child :: child in edges ==> edges[child].child == child
    }

    constructor ()
      ensures Valid() && edges == map[]
    {
      edges := map[];
    }

    method UpsertThreadSpawnEdge(parent: string, child: string, status: Status)
      requires Valid()
      modifies this
      ensures Valid()
      ensures edges.Keys == old(edges).Keys + {child} && edges[child] == Edge(parent, child, status)
      ensures forall other :: other in old(edges) && other != child ==> edges[other] == old(edges)[other]
    {
      edges := edges[child := Edge(parent, child, status)];
    }

    method SetThreadSpawnEdgeStatus(child: string, status: Status)
      requires Valid()
      modifies this
      ensures Valid()
      ensures edges.Keys == old(edges).Keys
      ensures forall c :: c in edges ==> edges[c] == if c == child then old(edges)[c].(status := status) else old(edges)[c]
    {
      if child !in edges {
        return;
      }
      edges := edges[child := edges[child].(status := status)];
    }

    method ListThreadSpawnChildren(parent: string, filter: Option<Status>) returns (children: seq<string>)
      requires Valid()
      ensures IsChildren(LexLess, FilteredParents(edges, filter), parent, children)
      ensures forall x :: x in children <==> x in edges && edges[x].parent == parent && (filter == None || filter == Some(edges[x].status))
    {
      ghost var parents := FilteredParents(edges, filter);
      children := [];
      var remaining := edges.Keys;
      while remaining != {}
        invariant remaining <= edges.Keys
        invariant IsGroup(parents, edges.Keys - remaining, parent, children)
      {
        var key :| key in remaining;
        remaining := remaining - {key};
        var edge := edges[key];
        if edge.parent == parent && Passes(edge, filter) {
          children := children + [edge.child];
        }
      }
      SortGroup(parents, parent, children);
      children := Sort(children, LexLess);
    }

    /** The index built at the head of the listing: children by parent, each list sorted. */
    method ChildrenByParent(filter: Option<Status>) returns (index: map<string, seq<string>>)
      requires Valid()
      ensures IsIndex(LexLess, FilteredParents(edges, filter), index)
    {
      ghost var parents := FilteredParents(edges, filter);
      index := map[];
      var remaining := edges.Keys;
      while remaining != {}
        invariant remaining <= edges.Keys
        invariant Groups(parents, edges.Keys - remaining, index)
      {
        var key :| key in remaining;
        VisitEdge(parents, edges.Keys - remaining, index, key);
        assert edges.Keys - (remaining - {key}) == (edges.Keys - remaining) + {key};
        remaining := remaining - {key};
        var edge := edges[key];
        if Passes(edge, filter) {
          index := index[edge.parent := Lookup(index, edge.parent) + [edge.child]];
        }
      }
      assert forall p :: IsGroup(parents, parents.Keys, p, Lookup(index, p));
      index := SortLists(parents, index);
    }

    /**
     The breadth-first listing: exactly the descendants, each once, in level order.
     */
    method ListThreadSpawnDescendants(root: string, filter: Option<Status>) returns (result: seq<string>)
      requires Valid()
      ensures NoDuplicates(result)
      ensures forall x :: x in result <==> Descends(FilteredParents(edges, filter), x, root)
      ensures forall x :: x in result <==> exists chain :: LeadsTo(edges, filter, chain, x, root)
      ensures LevelOrdered(LexLess, FilteredParents(edges, filter), root, result)
    {
      var index := ChildrenByParent(filter);
      assert Irreflexive(LexLess) by {
        forall x ensures !LexLess(x, x) { LexTrichotomy(x, x); }
      }
      result := BreadthFirst(LexLess, index, root, FilteredParents(edges, filter));
      forall x ensures Descends(FilteredParents(edges, filter), x, root) <==> exists chain :: LeadsTo(edges, filter, chain, x, root) {
        DescendsByEdges(edges, filter, x, root);
      }
    }
  }

  /** The queue loop of the listing, over the index of children. */
  method BreadthFirst(less: (string, string) -> bool, index: map<string, seq<string>>, root: string, ghost parents: Parents)
      returns (result: seq<string>)
    requires IsIndex(less, parents, index) && Irreflexive(less)
    ensures NoDuplicates(result)
    ensures forall x :: x in result <==> Descends(parents, x, root)
    ensures LevelOrdered(less, parents, root, result)
  {
    ghost var depth := TabulateDepths(parents, root);
    var queue := Lookup(index, root);
    var seen: set<string> := {};
    result := [];
    InitialQueue(less, parents, root, depth, queue);
    ghost var plan := queue;
    while queue != []
      invariant forall x :: x in seen <==> x in result
      invariant plan == Planned(result, queue)
      invariant Frontier(less, parents, root, depth, result, plan)
      decreases parents.Keys - seen, |queue|
    {
      var child := queue[0];
      var rest := queue[1..];
      if child in seen {
        queue := rest;
      } else {
        var children := Lookup(index, child);
        plan := Expand(less, parents, root, depth, result, queue, plan, children);
        seen := seen + {child};
        result := result + [child];
        queue := rest + children;
      }
    }
    AllReached(less, parents, root, depth, result);
  }

  // The invariant of the breadth-first search.

  /** The waiting threads that will be listed: not listed yet, first occurrence. */
  function Fresh(result: seq<string>, queue: seq<string>): seq<string>
    decreases queue
  {
    if queue == [] then []
    else if queue[0] in result then Fresh(result, queue[1..])
    else [queue[0]] + Fresh(result + [queue[0]], queue[1..])
  }

  lemma {:induction false} FreshAppend(result: seq<string>, queue: seq<string>, more: seq<string>)
    ensures Fresh(result, queue + more) == Fresh(result, queue) + Fresh(result + Fresh(result, queue), more)
    decreases queue
  {
    if queue == [] {
      assert queue + more == more && result + Fresh(result, queue) == result;
    } else {
      assert (queue + more)[1..] == queue[1..] + more;
      if queue[0] in result {
        FreshAppend(result, queue[1..], more);
      } else {
        FreshAppend(result + [queue[0]], queue[1..], more);
        assert result + [queue[0]] + Fresh(result + [queue[0]], queue[1..]) == result + Fresh(result, queue);
      }
    }
  }

  lemma {:induction false} FreshNew(result: seq<string>, more: seq<string>)
    requires NoDuplicates(more) && forall x :: x in more ==> x !in result
    ensures Fresh(result, more) == more
    decreases more
  {
    if more != [] {
      assert more == [more[0]] + more[1..];
      FreshNew(result + [more[0]], more[1..]);
    }
  }

  lemma {:induction false} FreshKnown(result: seq<string>, more: seq<string>)
    requires forall x :: x in more ==> x in result
    ensures Fresh(result, more) == []
  {
    if more != [] {
      FreshKnown(result, more[1..]);
    }
  }

  /** The order in which threads will be listed if nothing more is discovered. */
  function Planned(result: seq<string>, queue: seq<string>): seq<string> {
    result + Fresh(result, queue)
  }

  /** The plan is exactly the children of the root and of the listed threads. */
  ghost predicate Complete(parents: Parents, root: string, result: seq<string>, plan: seq<string>) {
    forall x :: x in plan <==> x in parents && (parents[x] == root || parents[x] in result)
  }

  /** `depth` tabulates the distance of every descendant of the root. */
  ghost predicate Tabulates(parents: Parents, root: string, depth: map<string, nat>) {
    && (forall x :: x in depth <==> Descends(parents, x, root))
    && (forall x | x in depth :: depth[x] == Distance(parents, x, root))
  }

  /** What the search uses about distances. */
  ghost predicate IsDepthTable(parents: Parents, root: string, depth: map<string, nat>) {
    forall x :: DepthRule(parents, root, depth, x)
  }

  ghost predicate DepthRule(parents: Parents, root: string, depth: map<string, nat>, x: string) {
    x in parents ==>
      if parents[x] == root then x in depth && depth[x] == 1
      else (x in depth <==> parents[x] in depth) && (x in depth ==> depth[x] == depth[parents[x]] + 1)
  }

  lemma TabulateDepths(parents: Parents, root: string) returns (depth: map<string, nat>)
    ensures Tabulates(parents, root, depth) && IsDepthTable(parents, root, depth)
  {
    depth := map x | x in parents && Descends(parents, x, root) :: Distance(parents, x, root);
    forall x ensures (x in depth <==> Descends(parents, x, root)) && DepthRule(parents, root, depth, x) {
      DescendsStep(parents, x, root);
      if Descends(parents, x, root) { ChildDistance(parents, x, root); }
    }
  }

  ghost predicate Ordered(less: (string, string) -> bool, parents: Parents, depth: map<string, nat>, plan: seq<string>)
    requires forall x | x in plan :: x in depth
  {
    forall i, j | 0 <= i < j < |plan| ::
      depth[plan[i]] <= depth[plan[j]] && (SameParent(parents, plan[i], plan[j]) ==> less(plan[i], plan[j]))
  }

  ghost predicate Frontier(less: (string, string) -> bool, parents: Parents, root: string, depth: map<string, nat>,
                           result: seq<string>, plan: seq<string>) {
    && NoDuplicates(result)
    && (forall x | x in plan :: x in depth)
    && Ordered(less, parents, depth, plan)
    && Complete(parents, root, result, plan)
    // Waiting threads are at most one level below the first of them.
    && (forall x, y | x in plan && y in plan && x !in result :: depth[y] <= depth[x] + 1)
  }

  lemma PlanOfNew(queue: seq<string>)
    requires NoDuplicates(queue)
    ensures Planned([], queue) == queue
  {
    FreshNew([], queue);
  }

  lemma InitialQueue(less: (string, string) -> bool, parents: Parents, root: string, depth: map<string, nat>, queue: seq<string>)
    requires Irreflexive(less) && IsDepthTable(parents, root, depth) && IsChildren(less, parents, root, queue)
    ensures Planned([], queue) == queue && Frontier(less, parents, root, depth, [], queue)
  {
    ChildrenDistinct(less, parents, root, queue);
    PlanOfNew(queue);
    forall x | x in queue ensures x in depth && depth[x] == 1 {
      assert DepthRule(parents, root, depth, x);
    }
  }

  lemma ChildrenDistinct(less: (string, string) -> bool, parents: Parents, p: string, children: seq<string>)
    requires Irreflexive(less) && IsChildren(less, parents, p, children)
    ensures NoDuplicates(children)
  {
  }

  lemma ExpandPlan(less: (string, string) -> bool, parents: Parents, root: string, result: seq<string>, child: string,
                   rest: seq<string>, children: seq<string>)
    requires Irreflexive(less) && child !in result && IsChildren(less, parents, child, children)
    requires Complete(parents, root, result, Planned(result, [child] + rest))
    ensures result + [child] <= Planned(result, [child] + rest)
    ensures child == root ==> Planned(result + [child], rest + children) == Planned(result, [child] + rest)
    ensures child != root ==>
      Planned(result + [child], rest + children) == Planned(result, [child] + rest) + children
      && NoDuplicates(children) && forall x :: x in children ==> x !in Planned(result, [child] + rest)
  {
    var queue := [child] + rest;
    assert queue[1..] == rest;
    var plan := Planned(result, queue);
    var listed := result + [child];
    assert plan == listed + Fresh(listed, rest);
    FreshAppend(listed, rest, children);
    if child == root {
      FreshKnown(plan, children);
    } else {
      ChildrenDistinct(less, parents, child, children);
      FreshNew(plan, children);
    }
  }

  lemma Expand(less: (string, string) -> bool, parents: Parents, root: string, depth: map<string, nat>,
               result: seq<string>, queue: seq<string>, plan: seq<string>, children: seq<string>)
      returns (plan': seq<string>)
    requires Irreflexive(less) && IsDepthTable(parents, root, depth)
    requires queue != [] && queue[0] !in result && IsChildren(less, parents, queue[0], children)
    requires plan == Planned(result, queue) && Frontier(less, parents, root, depth, result, plan)
    ensures plan' == Planned(result + [queue[0]], queue[1..] + children)
    ensures Frontier(less, parents, root, depth, result + [queue[0]], plan')
    ensures queue[0] in parents
  {
    var child, rest := queue[0], queue[1..];
    assert queue == [child] + rest;
    ExpandPlan(less, parents, root, result, child, rest, children);
    plan' := Planned(result + [child], rest + children);
    if child == root {
      ListRoot(less, parents, root, depth, result, child, plan);
    } else {
      ListChild(less, parents, root, depth, result, child, plan, children);
    }
  }

  /** Listing a thread whose children are already planned. */
  lemma ListRoot(less: (string, string) -> bool, parents: Parents, root: string, depth: map<string, nat>,
                 result: seq<string>, child: string, plan: seq<string>)
    requires Frontier(less, parents, root, depth, result, plan)
    requires result + [child] <= plan && child == root && child !in result
    ensures Frontier(less, parents, root, depth, result + [child], plan) && child in parents
  {
    assert plan[|result|] == child;
  }

  /** Listing any other thread appends its children to the plan. */
  lemma ListChild(less: (string, string) -> bool, parents: Parents, root: string, depth: map<string, nat>,
                  result: seq<string>, child: string, plan: seq<string>, children: seq<string>)
    requires IsDepthTable(parents, root, depth) && IsChildren(less, parents, child, children)
    requires Frontier(less, parents, root, depth, result, plan)
    requires result + [child] <= plan && child != root && child !in result
    ensures Frontier(less, parents, root, depth, result + [child], plan + children) && child in parents
  {
    var listed, plan' := result + [child], plan + children;
    assert plan[|result|] == child && child in plan;
    forall x | x in children ensures x in depth && depth[x] == depth[child] + 1 {
      assert DepthRule(parents, root, depth, x);
    }
    forall i, j | 0 <= i < j < |plan'|
      ensures depth[plan'[i]] <= depth[plan'[j]]
      ensures SameParent(parents, plan'[i], plan'[j]) ==> less(plan'[i], plan'[j])
    {
      if j < |plan| {
        assert plan'[i] == plan[i] && plan'[j] == plan[j];
      } else {
        assert plan'[j] == children[j - |plan|] && plan'[j] in children;
        if i < |plan| {
          assert plan'[i] == plan[i] && plan[i] in plan;
        } else {
          assert plan'[i] == children[i - |plan|];
        }
      }
    }
    forall x, y | x in plan' && y in plan' && x !in listed ensures depth[y] <= depth[x] + 1 {
      if x in plan {
        var i :| 0 <= i < |plan| && plan[i] == x;
        assert i > |result|;
      }
    }
  }

  /** When nothing waits, the listed threads are closed under children: all are reached. */
  lemma AllReached(less: (string, string) -> bool, parents: Parents, root: string, depth: map<string, nat>, result: seq<string>)
    requires Tabulates(parents, root, depth) && Frontier(less, parents, root, depth, result, result)
    ensures NoDuplicates(result)
    ensures forall x :: x in result <==> Descends(parents, x, root)
    ensures LevelOrdered(less, parents, root, result)
  {
    forall x, n: nat | n >= 1 && Up(parents, x, n) == Some(root) ensures x in result {
      ReachedByPath(parents, root, result, x, n);
    }
  }

  lemma {:induction false} ReachedByPath(parents: Parents, root: string, result: seq<string>, x: string, n: nat)
    requires Complete(parents, root, result, result)
    requires n >= 1 && Up(parents, x, n) == Some(root)
    ensures x in result
    decreases n
  {
    if n > 1 {
      ReachedByPath(parents, root, result, parents[x], n - 1);
    } else {
      assert Up(parents, x, 1) == Up(parents, parents[x], 0);
    }
  }
}
