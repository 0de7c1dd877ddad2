/**
 Traversals of the thread forest in the interactive front end: the fixpoint that
 collects a subtree (app/agents_overview_embedded.go), the upward walks
 (app/agent_tui.go, app/agents_dashboard.go) and the grouping of threads by root.
 All are proved against the ancestor relation, with cycles allowed.
 */
module ThreadForest {
  import opened Common
  import opened Ancestry

  /** One persisted session, as far as the traversals read it; an empty parent means none. */
  datatype Record = Record(id: string, parent: string, subagent: bool)

  /** The parent relation of a record table. */
  function Links(records: map<string, Record>): Parents {
    map id | id in records && records[id].parent != "" :: records[id].parent
  }

  /** The parent relation restricted to subagent records. */
  function SubagentLinks(records: map<string, Record>): Parents {
    map id | id in records && records[id].parent != "" && records[id].subagent :: records[id].parent
  }

  /**
   The parent relation gathered from a listing: ids and parents are trimmed, records
   lacking either are skipped, and a later record for the same id wins.
   */
  function ParentsOf(records: seq<Record>): Parents {
    if records == [] then map[]
    else
      var earlier := ParentsOf(records[..|records| - 1]);
      var id := TrimSpace(records[|records| - 1].id);
      var parent := TrimSpace(records[|records| - 1].parent);
      if id != "" && parent != "" then earlier[id := parent] else earlier
  }

  /** The record gives a thread a parent, both not blank. */
  predicate GivesParent(record: Record, id: string) {
    id != "" && TrimSpace(record.id) == id && TrimSpace(record.parent) != ""
  }

  /** The record at `i` is the last that gives the thread a parent, and gives it this one. */
  ghost predicate GivesLast(records: seq<Record>, i: nat, id: string, parent: string) {
    && i < |records| && GivesParent(records[i], id) && TrimSpace(records[i].parent) == parent
    && forall j :: i < j < |records| ==> !GivesParent(records[j], id)
  }

  lemma LastOfFront(records: seq<Record>, i: nat, id: string, parent: string)
    requires records != []
    ensures var n := |records| - 1;
      GivesLast(records, i, id, parent) <==>
        if GivesParent(records[n], id) then i == n && TrimSpace(records[n].parent) == parent
        else GivesLast(records[..n], i, id, parent)
  {
    hide GivesParent, TrimSpace;
  }

  /** A thread's parent is the one given by the last record that gives it one. */
  lemma {:induction false} ParentsOfExact(records: seq<Record>, id: string, parent: string)
    ensures id in ParentsOf(records) && ParentsOf(records)[id] == parent <==> exists i: nat :: GivesLast(records, i, id, parent)
  {
    hide TrimSpace, GivesLast;
    if records == [] {
      NoneGiven(id, parent);
    } else {
      var n := |records| - 1;
      ParentsOfExact(records[..n], id, parent);
      LastOfFront(records, n, id, parent);
      if i: nat :| GivesLast(records, i, id, parent) { LastOfFront(records, i, id, parent); }
      if i: nat :| GivesLast(records[..n], i, id, parent) { LastOfFront(records, i, id, parent); }
    }
  }

  lemma NoneGiven(id: string, parent: string)
    ensures forall i: nat :: !GivesLast([], i, id, parent)
  {
  }

  lemma {:induction false} ParentsOfNonEmpty(records: seq<Record>)
    ensures "" !in ParentsOf(records) && "" !in ParentsOf(records).Values
  {
    if records != [] {
      ParentsOfNonEmpty(records[..|records| - 1]);
    }
  }

  method ParentTable(records: seq<Record>) returns (parentOf: map<string, string>)
    ensures parentOf == ParentsOf(records)
  {
    parentOf := map[];
    for i := 0 to |records|
      invariant parentOf == ParentsOf(records[..i])
    {
      assert records[..i + 1][..i] == records[..i];
      var id, parent := TrimSpace(records[i].id), TrimSpace(records[i].parent);
      if id != "" && parent != "" {
        parentOf := parentOf[id := parent];
      }
    }
    assert records[..|records|] == records;
  }

  // The subtree fixpoint

  /** Everything the walk upwards connects to `root`, and `root` itself. */
  ghost predicate InSubtree(parents: Parents, x: string, root: string) {
    x == root || Descends(parents, x, root)
  }

  lemma {:induction false} ClosedReaches(parents: Parents, ids: set<string>, root: string, x: string, n: nat)
    requires root in ids && Up(parents, x, n) == Some(root)
    requires forall id | id in parents && parents[id] in ids :: id in ids
    ensures x in ids
    decreases n
  {
    if n > 0 {
      ClosedReaches(parents, ids, root, parents[x], n - 1);
    }
  }

  method KnownLocalThreadSubtree(records: seq<Record>, threadID: string) returns (ids: set<string>)
    ensures forall x :: x in ids <==> InSubtree(ParentsOf(records), x, TrimSpace(threadID))
  {
    var root := TrimSpace(threadID);
    ids := {root};
    var parentOf := ParentTable(records);
    ParentsOfNonEmpty(records);
    if root == "" {
      forall x ensures !Descends(parentOf, x, "") {
        NeverEmpty(parentOf, x);
      }
      return;
    }
    while true
      invariant root in ids && ids <= parentOf.Keys + {root}
      invariant forall x | x in ids :: InSubtree(parentOf, x, root)
      decreases parentOf.Keys + {root} - ids
    {
      ghost var known := ids;
      var before := |ids|;
      var remaining := parentOf.Keys;
      while remaining != {}
        invariant remaining <= parentOf.Keys
        invariant known <= ids <= parentOf.Keys + {root}
        invariant forall x | x in ids :: InSubtree(parentOf, x, root)
        invariant forall id | id in parentOf && id !in remaining && parentOf[id] in known :: id in ids
      {
        var id :| id in remaining;
        remaining := remaining - {id};
        if parentOf[id] in ids {
          DescendsStep(parentOf, id, root);
          ids := ids + {id};
        }
      }
      if |ids| == before {
        SameSize(known, ids);
        forall x, n: nat | n >= 1 && Up(parentOf, x, n) == Some(root) ensures x in ids {
          ClosedReaches(parentOf, ids, root, x, n);
        }
        return;
      }
      FewerOutside(known, ids, parentOf.Keys + {root});
    }
  }

  lemma SameSize<T>(a: set<T>, b: set<T>)
    requires a <= b && |a| == |b|
    ensures a == b
  {
    assert |b - a| == |b| - |a|;
  }

  lemma FewerOutside<T>(a: set<T>, b: set<T>, all: set<T>)
    requires a <= b <= all && |a| != |b|
    ensures all - b < all - a
  {
    assert a != b;
    var x :| x in b && x !in a;
    assert x in all - a && x !in all - b;
  }

  lemma NeverEmpty(parents: Parents, x: string)
    requires "" !in parents.Values
    ensures !Descends(parents, x, "")
  {
    forall n: nat | n >= 1 && Up(parents, x, n).Some? ensures Up(parents, x, n) != Some("") {
      LastStep(parents, x, n);
    }
  }

  lemma {:induction false} LastStep(parents: Parents, x: string, n: nat)
    requires n >= 1 && Up(parents, x, n).Some?
    ensures Up(parents, x, n).value in parents.Values
    decreases n
  {
    if n == 1 {
      assert Up(parents, x, 1) == Up(parents, parents[x], 0);
    } else {
      LastStep(parents, parents[x], n - 1);
    }
  }

  // Walking up towards one ancestor

  /** The threads on the first `k` steps above and including `x`. */
  ghost predicate SeenBelow(parents: Parents, x: string, k: nat, seen: set<string>) {
    forall y :: y in seen <==> exists i: nat :: i < k && Up(parents, x, i) == Some(y)
  }

  lemma SeenStep(parents: Parents, x: string, k: nat, seen: set<string>, current: string)
    requires SeenBelow(parents, x, k, seen) && Up(parents, x, k) == Some(current)
    ensures SeenBelow(parents, x, k + 1, seen + {current})
    ensures current in parents ==> Up(parents, x, k + 1) == Some(parents[current])
    ensures current !in parents ==> Up(parents, x, k + 1) == None
  {
    UpAdd(parents, x, k, 1);
    if current in parents {
      assert Up(parents, current, 1) == Up(parents, parents[current], 0);
    }
    forall y ensures y in seen + {current} ==> exists i: nat :: i < k + 1 && Up(parents, x, i) == Some(y) {
      if y in seen {
        var i: nat :| i < k && Up(parents, x, i) == Some(y);
        assert i < k + 1 && Up(parents, x, i) == Some(y);
      } else {
        assert k < k + 1 && Up(parents, x, k) == Some(current);
      }
    }
  }

  /** A walk that stops, at a thread without parent or at a repetition, has seen every ancestor. */
  lemma WalkSawAll(parents: Parents, x: string, k: nat, seen: set<string>, n: nat)
    requires SeenBelow(parents, x, k, seen)
    requires Up(parents, x, k) == None || Up(parents, x, k).value in seen
    requires Up(parents, x, n).Some?
    ensures Up(parents, x, n).value in seen
  {
    if Up(parents, x, k) == None {
      if k <= n { UpShorter(parents, x, k, n); }
      assert n < k;
    } else {
      var j: nat :| j < k && Up(parents, x, j) == Up(parents, x, k);
      RepeatedChain(parents, x, j, k, n);
    }
  }

  method LocalAgentRecordDescendsFrom(record: Record, ancestor: string, records: map<string, Record>)
      returns (found: bool)
    ensures found <==> ancestor != "" && record.parent != "" && InSubtree(Links(records), record.parent, ancestor)
  {
    if ancestor == "" {
      return false;
    }
    ghost var links := Links(records);
    var start := record.parent;
    var parent := start;
    var seen: set<string> := {};
    ghost var k: nat := 0;
    while parent != "" && parent !in seen
      invariant parent != "" ==> Up(links, start, k) == Some(parent)
      invariant start == "" ==> parent == ""
      invariant parent == "" ==> start == "" || Up(links, start, k) == None
      invariant start != "" ==> SeenBelow(links, start, k, seen)
      invariant start != "" ==> ancestor !in seen && seen <= records.Keys
      decreases records.Keys - seen
    {
      SeenStep(links, start, k, seen, parent);
      if parent == ancestor {
        assert Up(links, start, k) == Some(ancestor);
        assert k == 0 ==> start == ancestor;
        return true;
      }
      seen := seen + {parent};
      k := k + 1;
      if parent !in records {
        NotReached(links, start, k, seen, ancestor);
        return false;
      }
      parent := records[parent].parent;
    }
    if start != "" {
      NotReached(links, start, k, seen, ancestor);
    }
    return false;
  }

  lemma NotReached(parents: Parents, x: string, k: nat, seen: set<string>, ancestor: string)
    requires SeenBelow(parents, x, k, seen) && ancestor !in seen
    requires Up(parents, x, k) == None || Up(parents, x, k).value in seen
    ensures !InSubtree(parents, x, ancestor)
  {
    forall n: nat ensures Up(parents, x, n) != Some(ancestor) {
      if Up(parents, x, n).Some? { WalkSawAll(parents, x, k, seen, n); }
    }
    assert Up(parents, x, 0) != Some(ancestor);
  }

  /** The records of a listing by id; a later record for the same id wins. */
  function ById(records: seq<Record>): map<string, Record> {
    if records == [] then map[]
    else
      var earlier, last := ById(records[..|records| - 1]), records[|records| - 1];
      if last.id != "" then earlier[last.id := last] else earlier
  }

  /** The record at `i` is the last with this id. */
  ghost predicate LastWith(records: seq<Record>, i: nat, id: string) {
    i < |records| && records[i].id == id && forall j :: i < j < |records| ==> records[j].id != id
  }

  /** The record filed under an id is the last one with it. */
  lemma {:induction false} ByIdExact(records: seq<Record>, id: string, record: Record)
    ensures id in ById(records) && ById(records)[id] == record <==>
      id != "" && exists i: nat :: LastWith(records, i, id) && records[i] == record
  {
    if records != [] {
      var front, n := records[..|records| - 1], |records| - 1;
      ByIdExact(front, id, record);
      if records[n].id == id {
        assert LastWith(records, n, id);
      } else {
        forall i: nat ensures LastWith(front, i, id) <==> LastWith(records, i, id) {
        }
      }
    }
  }

  /** The parents that the walks climb. */
  lemma LinksExact(records: map<string, Record>, id: string, parent: string)
    ensures id in Links(records) && Links(records)[id] == parent <==>
      id in records && records[id].parent == parent && parent != ""
    ensures id in SubagentLinks(records) && SubagentLinks(records)[id] == parent <==>
      id in records && records[id].parent == parent && parent != "" && records[id].subagent
  {
  }

  method LocalAgentRecordsByID(records: seq<Record>) returns (byID: map<string, Record>)
    ensures byID == ById(records)
  {
    byID := map[];
    for i := 0 to |records|
      invariant byID == ById(records[..i])
    {
      assert records[..i + 1][..i] == records[..i];
      if records[i].id != "" {
        byID := byID[records[i].id := records[i]];
      }
    }
    assert records[..|records|] == records;
  }

  // Walking up to the top

  /** Where a walk from `id` ends when `seen` has already been visited. */
  function RootFrom(parents: Parents, id: string, seen: set<string>): string
    decreases parents.Keys - seen
  {
    if id in seen || id !in parents then id else RootFrom(parents, parents[id], seen + {id})
  }

  method AgentsOverviewRootThread(threadID: string, parentOf: map<string, string>) returns (id: string)
    requires "" !in parentOf && "" !in parentOf.Values
    ensures id == RootFrom(parentOf, threadID, {})
  {
    id := threadID;
    var seen: set<string> := {};
    while true
      invariant seen <= parentOf.Keys
      invariant RootFrom(parentOf, threadID, {}) == RootFrom(parentOf, id, seen)
      decreases parentOf.Keys - seen
    {
      if id in seen {
        return;
      }
      var parent := if id in parentOf then parentOf[id] else "";
      assert id in parentOf ==> parent in parentOf.Values;
      if parent == "" {
        return;
      }
      seen := seen + {id};
      id := parent;
    }
  }

  method LocalAgentPrimaryThreadID(records: map<string, Record>, currentThreadID: string) returns (primary: string)
    requires "" !in records
    ensures primary == RootFrom(SubagentLinks(records), TrimSpace(currentThreadID), {})
  {
    ghost var links := SubagentLinks(records);
    var current := TrimSpace(currentThreadID);
    primary := current;
    var seen: set<string> := {};
    while current != "" && current !in seen
      invariant primary == current && seen <= records.Keys
      invariant RootFrom(links, TrimSpace(currentThreadID), {}) == RootFrom(links, current, seen)
      decreases records.Keys - seen
    {
      if current !in records || !records[current].subagent || records[current].parent == "" {
        return;
      }
      seen := seen + {current};
      primary := records[current].parent;
      current := records[current].parent;
    }
  }

  /** A stopping point of upward walks: a thread without parent, or one on a cycle. */
  ghost predicate IsTop(parents: Parents, x: string) {
    x !in parents || Descends(parents, x, x)
  }

  /**
   The walk ends at the nearest stopping point: the end is the thread itself or an
   ancestor, it is a top, and every other top above the thread is above the end.
   */
  lemma RootIsNearestTop(parents: Parents, x: string)
    ensures var e := RootFrom(parents, x, {});
      && InSubtree(parents, x, e) && IsTop(parents, e)
      && forall y | InSubtree(parents, x, y) && IsTop(parents, y) :: InSubtree(parents, e, y)
  {
    assert Up(parents, x, 0) == Some(x);
    assert SeenBelow(parents, x, 0, {});
    var k := RootReached(parents, x, 0, {}, x);
    var e := RootFrom(parents, x, {});
    if k == 0 { assert x == e; }
    forall y | InSubtree(parents, x, y) && IsTop(parents, y) ensures InSubtree(parents, e, y) {
      var n: nat :| Up(parents, x, n) == Some(y);
      TopAbove(parents, x, k, e, n, y);
    }
  }

  lemma {:induction false} RootReached(parents: Parents, x: string, k: nat, seen: set<string>, id: string) returns (m: nat)
    requires SeenBelow(parents, x, k, seen) && Up(parents, x, k) == Some(id)
    requires forall y | y in seen :: y in parents
    requires forall i: nat, j: nat | i < j < k :: Up(parents, x, i) != Up(parents, x, j)
    ensures Up(parents, x, m) == Some(RootFrom(parents, id, seen))
    ensures IsTop(parents, RootFrom(parents, id, seen))
    ensures forall i: nat, j: nat | i < j < m :: Up(parents, x, i) != Up(parents, x, j)
    decreases parents.Keys - seen
  {
    if id in seen {
      m := k;
      var j: nat :| j < k && Up(parents, x, j) == Some(id);
      UpAdd(parents, x, j, k - j);
      assert Up(parents, id, k - j) == Some(id);
    } else if id !in parents {
      m := k;
    } else {
      SeenStep(parents, x, k, seen, id);
      m := RootReached(parents, x, k + 1, seen + {id}, parents[id]);
    }
  }

  /** A top `n` steps up cannot lie strictly below the first repetition, unless the walk returns to it. */
  lemma TopAbove(parents: Parents, x: string, k: nat, e: string, n: nat, y: string)
    requires Up(parents, x, k) == Some(e) && Up(parents, x, n) == Some(y) && IsTop(parents, y)
    requires forall i: nat, j: nat | i < j < k :: Up(parents, x, i) != Up(parents, x, j)
    ensures InSubtree(parents, e, y)
  {
    if n >= k {
      UpAdd(parents, x, k, n - k);
      assert n == k ==> e == y;
    } else {
      UpAdd(parents, x, n, k - n);
      assert Descends(parents, y, e);
      DescendsStep(parents, y, e);
      var c: nat :| c >= 1 && Up(parents, y, c) == Some(y);
      UpAdd(parents, x, n, c);
      // x returns to y after c more steps, which the distinct prefix puts at or beyond k.
      assert Up(parents, x, n + c) == Up(parents, x, n);
      assert n + c >= k;
      UpAdd(parents, x, k, n + c - k);
      if n + c == k { assert e == y; }
    }
  }

  /** On an acyclic relation the walk ends at the unique ancestor without parent. */
  lemma RootUnique(parents: Parents, x: string)
    requires Acyclic(parents)
    ensures forall r :: r == RootFrom(parents, x, {}) <==> InSubtree(parents, x, r) && r !in parents
  {
    RootIsNearestTop(parents, x);
    var e := RootFrom(parents, x, {});
    forall r | InSubtree(parents, x, r) && r !in parents ensures r == e {
      if Descends(parents, e, r) { DescendsStep(parents, e, r); }
    }
  }

  // Grouping by root

  ghost predicate IsGrouping(parents: Parents, visited: set<string>, groups: map<string, seq<string>>) {
    && (forall r | r in groups :: NoDuplicates(groups[r]))
    && (forall r, id :: r in groups && id in groups[r] <==>
          id in visited && RootFrom(parents, id, {}) == r && r != id)
  }

  method AgentsOverviewChildrenByRoot(threads: seq<Record>) returns (groups: map<string, seq<string>>)
    ensures IsGrouping(ParentsOf(threads), ParentsOf(threads).Keys, groups)
  {
    var parentOf := ParentTable(threads);
    ParentsOfNonEmpty(threads);
    groups := map[];
    var remaining := parentOf.Keys;
    while remaining != {}
      invariant remaining <= parentOf.Keys
      invariant IsGrouping(parentOf, parentOf.Keys - remaining, groups)
    {
      var id :| id in remaining;
      var root := AgentsOverviewRootThread(id, parentOf);
      AddToGroup(parentOf, parentOf.Keys - remaining, groups, id);
      assert parentOf.Keys - (remaining - {id}) == (parentOf.Keys - remaining) + {id};
      remaining := remaining - {id};
      if root != id {
        groups := groups[root := (if root in groups then groups[root] else []) + [id]];
      }
    }
    assert parentOf.Keys - remaining == parentOf.Keys;
  }

  lemma AddToGroup(parents: Parents, visited: set<string>, groups: map<string, seq<string>>, id: string)
    requires IsGrouping(parents, visited, groups) && id !in visited
    ensures var root := RootFrom(parents, id, {});
      IsGrouping(parents, visited + {id},
                 if root == id then groups
                 else groups[root := (if root in groups then groups[root] else []) + [id]])
  {
  }

  /** Grouping by root on an acyclic relation: every child is under exactly one root, in its subtree. */
  lemma GroupsPartitionForest(parents: Parents, groups: map<string, seq<string>>, id: string)
    requires Acyclic(parents) && IsGrouping(parents, parents.Keys, groups) && id in parents
    ensures var root := RootFrom(parents, id, {});
      && root in groups && id in groups[root] && root !in parents && Descends(parents, id, root)
      && forall r | r in groups && id in groups[r] :: r == root
  {
    RootUnique(parents, id);
  }

  /** Without assuming acyclicity: whatever is listed under a root lies in that root's subtree. */
  lemma GroupsWithinSubtrees(parents: Parents, groups: map<string, seq<string>>, r: string, id: string)
    requires IsGrouping(parents, parents.Keys, groups) && r in groups && id in groups[r]
    ensures Descends(parents, id, r) && IsTop(parents, r)
  {
    RootIsNearestTop(parents, id);
  }
}
