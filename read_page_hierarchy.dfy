/** `ReadPageHierarchy.invoke`: the tree of current pages of a space, below a root page or from
    the top level, each level sorted by title, cut at an optional depth. */
module ReadPageHierarchy {
  import opened Base
  import opened Model
  import opened Tables
  import opened Authority

  const CurrentStatus: string := "current"

  /** `page_info`: a shown page with its own subtree. */
  datatype Node = Node(pageId: Id, title: string, createdBy: Id, createdAt: string, children: seq<Node>)

  datatype Hierarchy = Hierarchy(spaceId: Id, spaceName: string, hierarchy: seq<Node>)

  /** `max_depth` cuts the tree only when it is given and non-zero. */
  predicate Truthy(maxDepth: Option<int>)
  {
    maxDepth.Some? && maxDepth.value != 0
  }

  /** The page is listed under `parent`: same parent, same space, status "current". */
  predicate Shown(p: Page, space: Id, parent: Option<Id>)
  {
    p.parentPageId == parent && p.spaceId == space && p.status == CurrentStatus
  }

  // ---------------------------------------------------------------------------
  // sorted(children, key=title): a stable insertion sort
  // ---------------------------------------------------------------------------

  /** Titles never decrease along the list. */
  predicate SortedByTitle(s: seq<Node>)
  {
    forall i, j :: 0 <= i < j < |s| ==> !Before(s[j].title, s[i].title)
  }

  /** Insert `x` before the first node whose title is greater, so that it follows the nodes
      with an equal title. */
  function InsertByTitle(x: Node, s: seq<Node>): seq<Node>
  {
    if s == [] then [x]
    else if Before(x.title, s[0].title) then [x] + s
    else [s[0]] + InsertByTitle(x, s[1..])
  }

  function SortByTitle(s: seq<Node>): seq<Node>
  {
    if s == [] then [] else InsertByTitle(s[|s| - 1], SortByTitle(s[..|s| - 1]))
  }

  /** A node no later than anything in a sorted list can go in front of it. */
  lemma PrependSorted(x: Node, s: seq<Node>)
    requires SortedByTitle(s)
    requires forall e | e in s :: !Before(e.title, x.title)
    ensures SortedByTitle([x] + s)
  {
    var r := [x] + s;
    forall i, j | 0 <= i < j < |r| ensures !Before(r[j].title, r[i].title) {
      if i == 0 {
        assert r[j] in s;
      } else {
        assert r[i] == s[i - 1] && r[j] == s[j - 1];
      }
    }
  }

  lemma {:induction false} InsertByTitlePermutes(x: Node, s: seq<Node>)
    ensures multiset(InsertByTitle(x, s)) == multiset(s) + multiset{x}
  {
    if s != [] && !Before(x.title, s[0].title) {
      InsertByTitlePermutes(x, s[1..]);
      assert s == [s[0]] + s[1..];
    }
  }

  lemma {:induction false} InsertByTitleSorted(x: Node, s: seq<Node>)
    requires SortedByTitle(s)
    ensures multiset(InsertByTitle(x, s)) == multiset(s) + multiset{x}
    ensures SortedByTitle(InsertByTitle(x, s))
  {
    InsertByTitlePermutes(x, s);
    if s == [] {
    } else if Before(x.title, s[0].title) {
      forall e | e in s ensures !Before(e.title, x.title) {
        var m :| 0 <= m < |s| && s[m] == e;
        if m == 0 {
          BeforeIrreflexive(x.title);
          if Before(e.title, x.title) { BeforeTransitive(x.title, e.title, x.title); }
        } else if Before(e.title, x.title) {
          BeforeTransitive(e.title, x.title, s[0].title);
        }
      }
      PrependSorted(x, s);
    } else {
      var rest := InsertByTitle(x, s[1..]);
      InsertByTitleSorted(x, s[1..]);
      forall e | e in rest ensures !Before(e.title, s[0].title) {
        assert e in multiset(rest);
        if e != x {
          assert e in multiset(s[1..]);
          var m :| 0 <= m < |s[1..]| && s[1..][m] == e;
          assert s[m + 1] == e;
        }
      }
      PrependSorted(s[0], rest);
    }
  }

  /** The sort is a permutation and its result is sorted by title. */
  lemma {:induction false} SortByTitleSorted(s: seq<Node>)
    ensures multiset(SortByTitle(s)) == multiset(s)
    ensures SortedByTitle(SortByTitle(s))
  {
    if s != [] {
      SortByTitleSorted(s[..|s| - 1]);
      InsertByTitleSorted(s[|s| - 1], SortByTitle(s[..|s| - 1]));
      assert s == s[..|s| - 1] + [s[|s| - 1]];
    }
  }

  lemma SortKeepsMembers(s: seq<Node>, x: Node)
    ensures x in SortByTitle(s) <==> x in s
  {
    SortByTitleSorted(s);
    assert x in SortByTitle(s) <==> x in multiset(SortByTitle(s));
  }

  // ---------------------------------------------------------------------------
  // build_hierarchy
  // ---------------------------------------------------------------------------

  /** `build_hierarchy(parent, depth)`. `fuel` bounds the recursion; the handler passes one more
      than the number of pages, which an acyclic parent chain never exhausts. */
  function BuildHierarchy(pages: map<Id, Page>, space: Id, maxDepth: Option<int>, parent: Option<Id>,
                          depth: nat, fuel: nat): seq<Node>
    decreases fuel, 1
  {
    if fuel == 0 then []
    else if Truthy(maxDepth) && depth >= maxDepth.value then []
    else SortByTitle(ChildNodes(pages, space, maxDepth, parent, depth, fuel, GenerateId(pages)))
  }

  /** The loop over `pages.items()` up to key `n`: a node for each shown page, in key order. */
  function ChildNodes(pages: map<Id, Page>, space: Id, maxDepth: Option<int>, parent: Option<Id>,
                      depth: nat, fuel: nat, n: nat): seq<Node>
    requires fuel > 0
    decreases fuel, 0, n
  {
    if n == 0 then []
    else
      ChildNodes(pages, space, maxDepth, parent, depth, fuel, n - 1)
      + (if n - 1 in pages && Shown(pages[n - 1], space, parent)
         then [MakeNode(pages, space, maxDepth, n - 1, depth, fuel)] else [])
  }

  function MakeNode(pages: map<Id, Page>, space: Id, maxDepth: Option<int>, page: Id, depth: nat, fuel: nat): Node
    requires fuel > 0 && page in pages
    decreases fuel, 0, 0
  {
    Node(page, pages[page].title, pages[page].createdBy, pages[page].createdAt,
         BuildHierarchy(pages, space, maxDepth, Some(page), depth + 1, fuel - 1))
  }

  function Spec(db: Db, requester: Id, space: Id, root: Option<Id>, maxDepth: Option<int>): Result<Hierarchy>
  {
    if requester !in db.users then Err(RequesterNotFound)
    else if space !in db.spaces then Err(SpaceNotFound)
    else if !IsOwner(db.users, requester) && !HasGrant(db.spacePermissions, space, requester, SpaceAnyAccess) then
      Err(Unauthorized)
    else
      Ok(Hierarchy(space, db.spaces[space].name,
                   BuildHierarchy(db.pages, space, maxDepth, root, 0, |db.pages| + 1)))
  }

  method Invoke(store: Store, requester: Id, space: Id, root: Option<Id>, maxDepth: Option<int>)
    returns (r: Result<Hierarchy>)
    ensures r == Spec(store.State(), requester, space, root, maxDepth)
  {
    if requester !in store.users { return Err(RequesterNotFound); }
    if space !in store.spaces { return Err(SpaceNotFound); }
    var hasPermission := IsOwner(store.users, requester);
    if !hasPermission {
      hasPermission := FindGrant(store.spacePermissions, space, requester, SpaceAnyAccess);
    }
    if !hasPermission { return Err(Unauthorized); }
    var tree := BuildHierarchy(store.pages, space, maxDepth, root, 0, |store.pages| + 1);
    return Ok(Hierarchy(space, store.spaces[space].name, tree));
  }

  // ---------------------------------------------------------------------------
  // Properties of the tree
  // ---------------------------------------------------------------------------

  /** Every node is a shown page under its parent, with that page's title, author and creation
      time, and the same holds for its children under it. */
  predicate WellFormed(pages: map<Id, Page>, space: Id, parent: Option<Id>, ns: seq<Node>)
    decreases ns
  {
    forall i :: 0 <= i < |ns| ==>
      && ns[i].pageId in pages
      && Shown(pages[ns[i].pageId], space, parent)
      && ns[i].title == pages[ns[i].pageId].title
      && ns[i].createdBy == pages[ns[i].pageId].createdBy
      && ns[i].createdAt == pages[ns[i].pageId].createdAt
      && WellFormed(pages, space, Some(ns[i].pageId), ns[i].children)
  }

  /** The tree has at most `levels` levels. */
  predicate Within(ns: seq<Node>, levels: nat)
    decreases ns
  {
    forall i :: 0 <= i < |ns| ==> levels > 0 && Within(ns[i].children, levels - 1)
  }

  /** Every level is sorted by title. */
  predicate SortedTree(ns: seq<Node>)
    decreases ns
  {
    SortedByTitle(ns) && forall i :: 0 <= i < |ns| ==> SortedTree(ns[i].children)
  }

  /** A node of ChildNodes is the node of a shown page with a key below `n`, and conversely. */
  lemma {:induction false} ChildNodesMembers(pages: map<Id, Page>, space: Id, maxDepth: Option<int>,
                                             parent: Option<Id>, depth: nat, fuel: nat, n: nat, x: Node)
    requires fuel > 0
    ensures x in ChildNodes(pages, space, maxDepth, parent, depth, fuel, n)
        <==> exists k :: k < n && k in pages && Shown(pages[k], space, parent)
                         && x == MakeNode(pages, space, maxDepth, k, depth, fuel)
  {
    if n > 0 {
      ChildNodesMembers(pages, space, maxDepth, parent, depth, fuel, n - 1, x);
    }
  }

  /** Element-wise facts carry over from the scan to the sorted level. */
  lemma SortedLevelMembers(pages: map<Id, Page>, space: Id, maxDepth: Option<int>, parent: Option<Id>,
                           depth: nat, fuel: nat, x: Node)
    requires fuel > 0 && !(Truthy(maxDepth) && depth >= maxDepth.value)
    ensures x in BuildHierarchy(pages, space, maxDepth, parent, depth, fuel)
        <==> exists k :: k in pages && Shown(pages[k], space, parent)
                         && x == MakeNode(pages, space, maxDepth, k, depth, fuel)
  {
    SortKeepsMembers(ChildNodes(pages, space, maxDepth, parent, depth, fuel, GenerateId(pages)), x);
    ChildNodesMembers(pages, space, maxDepth, parent, depth, fuel, GenerateId(pages), x);
  }

  /** Every node of the tree is a current page of the space under its parent, carrying that
      page's data. */
  lemma {:induction false} BuildHierarchyWellFormed(pages: map<Id, Page>, space: Id, maxDepth: Option<int>,
                                                    parent: Option<Id>, depth: nat, fuel: nat)
    ensures WellFormed(pages, space, parent, BuildHierarchy(pages, space, maxDepth, parent, depth, fuel))
    decreases fuel
  {
    var ns := BuildHierarchy(pages, space, maxDepth, parent, depth, fuel);
    if fuel > 0 && !(Truthy(maxDepth) && depth >= maxDepth.value) {
      forall i | 0 <= i < |ns|
        ensures && ns[i].pageId in pages && Shown(pages[ns[i].pageId], space, parent)
                && ns[i].title == pages[ns[i].pageId].title
                && ns[i].createdBy == pages[ns[i].pageId].createdBy
                && ns[i].createdAt == pages[ns[i].pageId].createdAt
                && WellFormed(pages, space, Some(ns[i].pageId), ns[i].children)
      {
        SortedLevelMembers(pages, space, maxDepth, parent, depth, fuel, ns[i]);
        var k :| k in pages && Shown(pages[k], space, parent) && ns[i] == MakeNode(pages, space, maxDepth, k, depth, fuel);
        BuildHierarchyWellFormed(pages, space, maxDepth, Some(k), depth + 1, fuel - 1);
      }
    }
  }

  /** With a truthy `max_depth`, the tree built at `depth` has at most `max_depth - depth` levels. */
  lemma {:induction false} BuildHierarchyWithinDepth(pages: map<Id, Page>, space: Id, maxDepth: Option<int>,
                                                     parent: Option<Id>, depth: nat, fuel: nat)
    requires Truthy(maxDepth)
    ensures Within(BuildHierarchy(pages, space, maxDepth, parent, depth, fuel),
                   if maxDepth.value > depth then maxDepth.value - depth else 0)
    decreases fuel
  {
    var ns := BuildHierarchy(pages, space, maxDepth, parent, depth, fuel);
    var levels := if maxDepth.value > depth then maxDepth.value - depth else 0;
    if fuel > 0 && depth < maxDepth.value {
      forall i | 0 <= i < |ns| ensures levels > 0 && Within(ns[i].children, levels - 1) {
        SortedLevelMembers(pages, space, maxDepth, parent, depth, fuel, ns[i]);
        var k :| k in pages && Shown(pages[k], space, parent) && ns[i] == MakeNode(pages, space, maxDepth, k, depth, fuel);
        BuildHierarchyWithinDepth(pages, space, maxDepth, Some(k), depth + 1, fuel - 1);
      }
    }
  }

  /** Every level of the tree is sorted by title. */
  lemma {:induction false} BuildHierarchySorted(pages: map<Id, Page>, space: Id, maxDepth: Option<int>,
                                                parent: Option<Id>, depth: nat, fuel: nat)
    ensures SortedTree(BuildHierarchy(pages, space, maxDepth, parent, depth, fuel))
    decreases fuel
  {
    var ns := BuildHierarchy(pages, space, maxDepth, parent, depth, fuel);
    if fuel > 0 && !(Truthy(maxDepth) && depth >= maxDepth.value) {
      SortByTitleSorted(ChildNodes(pages, space, maxDepth, parent, depth, fuel, GenerateId(pages)));
      forall i | 0 <= i < |ns| ensures SortedTree(ns[i].children) {
        SortedLevelMembers(pages, space, maxDepth, parent, depth, fuel, ns[i]);
        var k :| k in pages && Shown(pages[k], space, parent) && ns[i] == MakeNode(pages, space, maxDepth, k, depth, fuel);
        BuildHierarchySorted(pages, space, maxDepth, Some(k), depth + 1, fuel - 1);
      }
    }
  }

  /** Unless the depth cut applies, every current page of the space under `parent` is listed
      at this level, exactly once. */
  lemma BuildHierarchyComplete(pages: map<Id, Page>, space: Id, maxDepth: Option<int>, parent: Option<Id>,
                               depth: nat, fuel: nat, k: Id)
    requires fuel > 0 && !(Truthy(maxDepth) && depth >= maxDepth.value)
    requires k in pages && Shown(pages[k], space, parent)
    ensures MakeNode(pages, space, maxDepth, k, depth, fuel) in BuildHierarchy(pages, space, maxDepth, parent, depth, fuel)
  {
    SortedLevelMembers(pages, space, maxDepth, parent, depth, fuel, MakeNode(pages, space, maxDepth, k, depth, fuel));
  }

  /** Access needs PlatformOwner or a direct view, contribute or moderate grant on the space. */
  lemma SucceedsExactlyWhen(db: Db, requester: Id, space: Id, root: Option<Id>, maxDepth: Option<int>)
    ensures Spec(db, requester, space, root, maxDepth).Ok?
        <==> && requester in db.users && space in db.spaces
             && (IsOwner(db.users, requester) || HasGrant(db.spacePermissions, space, requester, SpaceAnyAccess))
  {
  }

  /** The reply's tree is well formed below the root, sorted at every level, and with a truthy
      `max_depth` has at most that many levels. */
  lemma ReplyTreeProperties(db: Db, requester: Id, space: Id, root: Option<Id>, maxDepth: Option<int>)
    requires Spec(db, requester, space, root, maxDepth).Ok?
    ensures var h := Spec(db, requester, space, root, maxDepth).value;
      && h.spaceId == space && h.spaceName == db.spaces[space].name
      && WellFormed(db.pages, space, root, h.hierarchy)
      && SortedTree(h.hierarchy)
      && (Truthy(maxDepth) ==> Within(h.hierarchy, if maxDepth.value > 0 then maxDepth.value else 0))
  {
    var fuel := |db.pages| + 1;
    assert Spec(db, requester, space, root, maxDepth).value
        == Hierarchy(space, db.spaces[space].name, BuildHierarchy(db.pages, space, maxDepth, root, 0, fuel));
    BuildHierarchyWellFormed(db.pages, space, maxDepth, root, 0, fuel);
    BuildHierarchySorted(db.pages, space, maxDepth, root, 0, fuel);
    if Truthy(maxDepth) {
      BuildHierarchyWithinDepth(db.pages, space, maxDepth, root, 0, fuel);
    }
  }
}
