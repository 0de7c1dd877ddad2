/**
 Two traversals of one listing of session records: the subtree fixpoint
 (app/agents_overview_embedded.go) reads a parent relation with trimmed fields in which a
 record without parent is skipped; the upward walk (app/agent_tui.go) reads the records
 by id as they are. When the two agree on who lies below whom, exactly.
 */
module ForestAgreement {
  import opened Common
  import opened Ancestry
  import opened ThreadForest

  predicate Trimmed(s: string) {
    s != "" && TrimSpace(s) == s
  }

  /** The walk from the record with this id finds the ancestor. */
  ghost predicate WalkFinds(byID: map<string, Record>, x: string, ancestor: string) {
    x in byID && byID[x].parent != "" && InSubtree(Links(byID), byID[x].parent, ancestor)
  }

  /** Fixpoint and walks give every thread the same subtree. */
  ghost predicate Agree(records: seq<Record>) {
    forall x, r | Trimmed(r) :: InSubtree(ParentsOf(records), x, r) <==> x == r || WalkFinds(ById(records), x, r)
  }

  /** Every parent in one relation is found above the thread in the other, a thread listed as its own parent aside. */
  ghost predicate EdgesAgree(records: seq<Record>) {
    var parents, links := ParentsOf(records), Links(ById(records));
    && (forall x | x in parents && parents[x] != x :: Descends(links, x, parents[x]))
    && (forall x | x in links && links[x] != x && Trimmed(links[x]) :: Descends(parents, x, links[x]))
  }

  lemma WalkDescends(byID: map<string, Record>, x: string, ancestor: string)
    requires x != ancestor
    ensures WalkFinds(byID, x, ancestor) <==> Descends(Links(byID), x, ancestor)
  {
    DescendsStep(Links(byID), x, ancestor);
  }

  lemma {:induction false} ParentsTrimmed(records: seq<Record>)
    ensures forall x | x in ParentsOf(records) :: Trimmed(x) && Trimmed(ParentsOf(records)[x])
  {
    if records != [] {
      ParentsTrimmed(records[..|records| - 1]);
    }
  }

  lemma DescendsOver(parents: Parents, x: string, y: string, z: string)
    requires Descends(parents, x, y) && Descends(parents, y, z)
    ensures Descends(parents, x, z)
  {
    var m: nat :| m >= 1 && Up(parents, x, m) == Some(y);
    var n: nat :| n >= 1 && Up(parents, y, n) == Some(z);
    UpAdd(parents, x, m, n);
  }

  /** Ancestors in the fixpoint's relation are ancestors of the walk. */
  lemma {:induction false} WalkCovers(records: seq<Record>, x: string, r: string, n: nat)
    requires EdgesAgree(records) && x != r && Up(ParentsOf(records), x, n) == Some(r)
    ensures Descends(Links(ById(records)), x, r)
    decreases n
  {
    var up := ParentsOf(records)[x];
    if up != r {
      WalkCovers(records, up, r, n - 1);
      if up != x { DescendsOver(Links(ById(records)), x, up, r); }
    }
  }

  /** Ancestors of the walk are ancestors in the fixpoint's relation. */
  lemma {:induction false} FixpointCovers(records: seq<Record>, x: string, r: string, n: nat)
    requires EdgesAgree(records) && Trimmed(r) && x != r && Up(Links(ById(records)), x, n) == Some(r)
    ensures Descends(ParentsOf(records), x, r)
    decreases n
  {
    var parents, up := ParentsOf(records), Links(ById(records))[x];
    if up != r {
      FixpointCovers(records, up, r, n - 1);
      DescendsStep(parents, up, r);
      ParentsTrimmed(records);
      if up != x { DescendsOver(parents, x, up, r); }
    }
  }

  /**
   For any listing, cycles included: the fixpoint and the walks agree iff every recorded
   parent of one relation is an ancestor in the other.
   */
  lemma WalkAgreesWithSubtree(records: seq<Record>)
    ensures Agree(records) <==> EdgesAgree(records)
  {
    var parents, byID := ParentsOf(records), ById(records);
    var links := Links(byID);
    ParentsTrimmed(records);
    if Agree(records) {
      forall x | x in parents && parents[x] != x ensures Descends(links, x, parents[x]) {
        DescendsStep(parents, x, parents[x]);
        WalkDescends(byID, x, parents[x]);
      }
      forall x | x in links && links[x] != x && Trimmed(links[x]) ensures Descends(parents, x, links[x]) {
        DescendsStep(links, x, links[x]);
        WalkDescends(byID, x, links[x]);
      }
    }
    if EdgesAgree(records) {
      forall x, r | Trimmed(r) ensures InSubtree(parents, x, r) <==> x == r || WalkFinds(byID, x, r) {
        if x != r {
          WalkDescends(byID, x, r);
          if n: nat :| n >= 1 && Up(parents, x, n) == Some(r) { WalkCovers(records, x, r, n); }
          if n: nat :| n >= 1 && Up(links, x, n) == Some(r) { FixpointCovers(records, x, r, n); }
        }
      }
    }
  }

  // Listings whose fields carry no blanks

  predicate AllTrimmed(records: seq<Record>) {
    forall i :: 0 <= i < |records| ==> TrimSpace(records[i].id) == records[i].id && TrimSpace(records[i].parent) == records[i].parent
  }

  lemma {:induction false} LinksWithin(records: seq<Record>)
    requires AllTrimmed(records)
    ensures forall x | x in Links(ById(records)) :: x in ParentsOf(records) && ParentsOf(records)[x] == Links(ById(records))[x]
    ensures forall x | x in ParentsOf(records) :: x in ById(records)
  {
    if records != [] {
      LinksWithin(records[..|records| - 1]);
    }
  }

  /** Threads with a parent in the first relation have one in the second, a thread listed as its own parent aside. */
  predicate KeepsParents(parents: Parents, links: Parents) {
    forall x | x in parents && parents[x] != x :: x in links
  }

  /**
   On a listing with trimmed fields, duplicate ids and cycles allowed, the two agree iff
   the last record of no thread drops a parent that an earlier record gave it, a thread
   listed as its own parent aside.
   */
  lemma TrimmedListing(records: seq<Record>)
    requires AllTrimmed(records)
    ensures Agree(records) <==> KeepsParents(ParentsOf(records), Links(ById(records)))
  {
    LinksWithin(records);
    WalkAgreesWithSubtree(records);
    ParentsKept(ParentsOf(records), Links(ById(records)));
  }

  lemma ParentsKept(parents: Parents, links: Parents)
    requires forall x | x in links :: x in parents && parents[x] == links[x]
    ensures KeepsParents(parents, links) <==>
      && (forall x | x in parents && parents[x] != x :: Descends(links, x, parents[x]))
      && (forall x | x in links && links[x] != x && Trimmed(links[x]) :: Descends(parents, x, links[x]))
  {
    forall x | x in links ensures Descends(parents, x, links[x]) && Descends(links, x, links[x]) {
      DescendsStep(parents, x, links[x]);
      DescendsStep(links, x, links[x]);
    }
    forall x | x in parents && x !in links ensures !Descends(links, x, parents[x]) {
      DescendsStep(links, x, parents[x]);
    }
  }

  predicate DistinctIds(records: seq<Record>) {
    forall i, j :: 0 <= i < j < |records| ==> records[i].id != records[j].id
  }

  /** With trimmed fields and distinct ids both read the same relation, so they agree. */
  lemma {:induction false} DistinctListing(records: seq<Record>)
    requires AllTrimmed(records) && DistinctIds(records)
    ensures Links(ById(records)) == ParentsOf(records)
  {
    if records != [] {
      var front := records[..|records| - 1];
      DistinctListing(front);
      IdsListed(front);
    }
  }

  lemma {:induction false} IdsListed(records: seq<Record>)
    ensures forall x | x in ById(records) :: exists i :: 0 <= i < |records| && records[i].id == x
  {
    if records != [] {
      IdsListed(records[..|records| - 1]);
      assert forall i :: 0 <= i < |records| - 1 ==> records[..|records| - 1][i] == records[i];
    }
  }

  /** A blank before a parent: the fixpoint puts the thread below it, the walk does not find it. */
  lemma BlankParentDisagrees()
    ensures var records := [Record("a", " p", false)];
      InSubtree(ParentsOf(records), "a", "p") && !WalkFinds(ById(records), "a", "p") && !Agree(records)
  {
    var records := [Record("a", " p", false)];
    assert records[..0] == [];
    assert TrimSpace("a") == "a";
    TrimBlank();
    assert ParentsOf(records) == map["a" := "p"] && ById(records) == map["a" := records[0]];
    assert Up(map["a" := "p"], "a", 1) == Up(map["a" := "p"], "p", 0) == Some("p");
    DescendsStep(Links(ById(records)), "a", "p");
    DescendsStep(Links(ById(records)), " p", "p");
  }

  lemma TrimBlank()
    ensures TrimSpace(" p") == "p"
  {
    assert " p"[1..] == "p";
    assert TrimLeft("p") == "p" && TrimLeft(" p") == "p";
  }

  /** A second record without parent: the fixpoint keeps the parent of the first, the walk reads the second. */
  lemma DroppedParentDisagrees()
    ensures var records := [Record("a", "p", false), Record("a", "", false)];
      InSubtree(ParentsOf(records), "a", "p") && !WalkFinds(ById(records), "a", "p") && !Agree(records)
  {
    var records := [Record("a", "p", false), Record("a", "", false)];
    assert records[..1] == [Record("a", "p", false)] && [Record("a", "p", false)][..0] == [];
    assert TrimSpace("a") == "a" && TrimSpace("p") == "p" && TrimSpace("") == "";
    assert ParentsOf(records) == map["a" := "p"] && ById(records)["a"] == records[1];
    assert Up(map["a" := "p"], "a", 1) == Up(map["a" := "p"], "p", 0) == Some("p");
  }

  // The two traversals side by side

  /** Both traversals over one listing: the subtree, and the threads whose walk finds its root. */
  method BothTraversals(records: seq<Record>, root: string) returns (subtree: set<string>, walked: set<string>)
    requires Trimmed(root)
    ensures forall x :: x in subtree <==> InSubtree(ParentsOf(records), x, root)
    ensures forall x :: x in walked <==> x == root || WalkFinds(ById(records), x, root)
    ensures EdgesAgree(records) ==> subtree == walked
  {
    subtree := KnownLocalThreadSubtree(records, root);
    var byID := LocalAgentRecordsByID(records);
    walked := {root};
    var remaining := byID.Keys;
    while remaining != {}
      invariant remaining <= byID.Keys
      invariant forall x :: x in walked <==> x == root || (x !in remaining && WalkFinds(byID, x, root))
      decreases |remaining|
    {
      var id :| id in remaining;
      remaining := remaining - {id};
      var found := LocalAgentRecordDescendsFrom(byID[id], root, byID);
      if found {
        walked := walked + {id};
      }
    }
    WalkAgreesWithSubtree(records);
  }
}
