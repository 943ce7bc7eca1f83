/**
 The navigation menu: a flat list of granted menus is completed with the
 directories above them, then nested by appending each node to its parent's
 list of children in place.
*/
module MenuTree {
  import opened Common
  import opened Hierarchy

  const ANCESTOR_LIMIT := 16

  datatype Menu = Menu(id: nat, parent: Option<nat>, isActive: bool)

  /** The whole menu table. */
  type Table = map<nat, Menu>

  ghost predicate Valid(t: Table) {
    forall n :: n in t ==> t[n].id == n && (t[n].parent.Some? ==> t[n].parent.value in t)
  }

  function ParentColumn(t: Table): Parents {
    map n | n in t :: t[n].parent
  }

  // ---------------------------------------------------------------- completing the granted menus

  /** _with_ancestor_directories: exactly the granted menus and what lies at most 16 parents above them. */
  method WithAncestorDirectories(t: Table, menuIds: set<nat>) returns (result: set<nat>)
    ensures result == Above(ParentColumn(t), menuIds, ANCESTOR_LIMIT)
    ensures forall a ::
              a in result <==> exists n :: n in menuIds && ReachesWithin(ParentColumn(t), n, a, 16)
  {
    ghost var g := ParentColumn(t);
    result := menuIds;
    var frontier := ParentQuery(t, menuIds);
    for i := 0 to ANCESTOR_LIMIT
      invariant result == Above(g, menuIds, i)
      invariant ParentsOf(g, result) <= result + frontier
      invariant frontier <= ParentsOf(g, result)
    {
      ClimbStep(g, menuIds, i, result, frontier);
      frontier := frontier - result;
      if frontier == {} {
        AboveSettles(g, menuIds, i, ANCESTOR_LIMIT);
        break;
      }
      result := result + frontier;
      frontier := ParentQuery(t, frontier);
    }
    AboveIffReached(g, menuIds, ANCESTOR_LIMIT);
  }

  lemma AboveIffReached(g: Parents, ids: set<nat>, k: nat)
    ensures forall a :: a in Above(g, ids, k) <==> exists n :: n in ids && ReachesWithin(g, n, a, k)
  {
    forall a
      ensures a in Above(g, ids, k) <==> exists n :: n in ids && ReachesWithin(g, n, a, k)
    {
      AboveIsAncestors(g, ids, k, a);
    }
  }

  /** One round: what the frontier adds is exactly the next level, and its parents are the next frontier. */
  lemma ClimbStep(g: Parents, ids: set<nat>, i: nat, result: set<nat>, frontier: set<nat>)
    requires result == Above(g, ids, i) && ParentsOf(g, result) <= result + frontier && frontier <= ParentsOf(g, result)
    ensures
      var added := frontier - result;
      && result + added == Above(g, ids, i + 1)
      && ParentsOf(g, result + added) <= result + added + ParentsOf(g, added)
      && ParentsOf(g, added) <= ParentsOf(g, result + added)
      && (added == {} ==> ParentsOf(g, result) <= result)
  {
    ParentsOfUnion(g, result, frontier - result);
  }

  lemma ParentsOfUnion(g: Parents, a: set<nat>, b: set<nat>)
    ensures ParentsOf(g, a + b) == ParentsOf(g, a) + ParentsOf(g, b)
  {
  }

  function ParentQuery(t: Table, ids: set<nat>): (r: set<nat>)
    ensures r == ParentsOf(ParentColumn(t), ids)
  {
    var r := set n | n in ids && n in t && t[n].parent.Some? :: t[n].parent.value;
    assert r == ParentsOf(ParentColumn(t), ids);
    r
  }

  /** The menus a user sees: the completed set without inactive menus. */
  function MyMenus(t: Table, granted: set<nat>): set<nat> {
    set n | n in Above(ParentColumn(t), granted, ANCESTOR_LIMIT) && n in t && t[n].isActive
  }

  /** The active menus that are granted or lie at most 16 parents above a granted one. */
  lemma MyMenusIff(t: Table, granted: set<nat>, n: nat)
    ensures n in MyMenus(t, granted)
       <==> n in t && t[n].isActive && exists m :: m in granted && ReachesWithin(ParentColumn(t), m, n, 16)
  {
    AboveIsAncestors(ParentColumn(t), granted, ANCESTOR_LIMIT, n);
  }

  /** No granted menu has more than 16 menus above it. */
  ghost predicate ShallowGrants(t: Table, granted: set<nat>) {
    forall n :: n in granted ==> n in t && Ancestor(ParentColumn(t), n, ANCESTOR_LIMIT + 1).None?
  }

  /** Seen menus lose their parent, and so move to the top, exactly when it is missing or inactive. */
  lemma OnlyInactiveParentsPromote(t: Table, granted: set<nat>, n: nat)
    requires Valid(t) && ShallowGrants(t, granted) && n in MyMenus(t, granted)
    ensures t[n].parent.Some? && t[n].parent.value in MyMenus(t, granted)
       <==> t[n].parent.Some? && t[t[n].parent.value].isActive
  {
    if t[n].parent.Some? {
      var g, p := ParentColumn(t), t[n].parent.value;
      AboveIsAncestors(g, granted, ANCESTOR_LIMIT, n);
      var m :| m in granted && ReachesWithin(g, m, n, ANCESTOR_LIMIT);
      var j :| 0 <= j <= ANCESTOR_LIMIT && Ancestor(g, m, j) == Some(n);
      assert Ancestor(g, m, j + 1) == Some(p);
      assert ReachesWithin(g, m, p, ANCESTOR_LIMIT);
      AboveIsAncestors(g, granted, ANCESTOR_LIMIT, p);
    }
  }

  // ---------------------------------------------------------------- nesting

  /** Ids are primary keys. */
  ghost predicate DistinctIds(menus: seq<Menu>) {
    forall i, j :: 0 <= i < j < |menus| ==> menus[i].id != menus[j].id
  }

  function Ids(menus: seq<Menu>): seq<nat> {
    if menus == [] then [] else Ids(menus[..|menus| - 1]) + [menus[|menus| - 1].id]
  }

  function IdSet(menus: seq<Menu>): set<nat> {
    if menus == [] then {} else IdSet(menus[..|menus| - 1]) + {menus[|menus| - 1].id}
  }

  /** The parent inside the list; a parent outside it does not count. */
  function ListParent(ids: set<nat>, m: Menu): Option<nat> {
    if m.parent.Some? && m.parent.value in ids then m.parent else None
  }

  /** The menus with the given parent inside the list, in the order of the list. */
  function Siblings(menus: seq<Menu>, ids: set<nat>, parent: Option<nat>): seq<nat> {
    if menus == [] then []
    else
      var m := menus[|menus| - 1];
      Siblings(menus[..|menus| - 1], ids, parent) + if ListParent(ids, m) == parent then [m.id] else []
  }

  /** The roots and the children lists of all nodes. */
  datatype Nested = Nested(roots: seq<nat>, children: map<nat, seq<nat>>) {
    function ChildrenOf(n: nat): seq<nat> {
      if n in children then children[n] else []
    }
  }

  /** Roots and children lists hold exactly the siblings, in the order of the list. */
  ghost predicate IsNesting(tree: Nested, menus: seq<Menu>) {
    && tree.children.Keys == IdSet(menus)
    && tree.roots == Siblings(menus, IdSet(menus), None)
    && forall n :: n in tree.children ==> tree.children[n] == Siblings(menus, IdSet(menus), Some(n))
  }

  method EmptyNodes(menus: seq<Menu>) returns (nodes: map<nat, seq<nat>>)
    ensures nodes.Keys == IdSet(menus)
    ensures forall n :: n in nodes ==> nodes[n] == []
  {
    nodes := map[];
    for i := 0 to |menus|
      invariant nodes.Keys == IdSet(menus[..i])
      invariant forall n :: n in nodes ==> nodes[n] == []
    {
      nodes := nodes[menus[i].id := []];
      assert menus[..i + 1][..i] == menus[..i];
    }
    assert menus[..|menus|] == menus;
  }

  /** Roots and children lists after the first i menus. */
  ghost predicate NestedSoFar(roots: seq<nat>, nodes: map<nat, seq<nat>>, menus: seq<Menu>, i: nat)
    requires i <= |menus|
  {
    && nodes.Keys == IdSet(menus)
    && roots == Siblings(menus[..i], IdSet(menus), None)
    && forall n :: n in nodes ==> nodes[n] == Siblings(menus[..i], IdSet(menus), Some(n))
  }

  lemma SiblingsStep(menus: seq<Menu>, ids: set<nat>, i: nat, p: Option<nat>)
    requires i < |menus|
    ensures Siblings(menus[..i + 1], ids, p)
         == Siblings(menus[..i], ids, p) + if ListParent(ids, menus[i]) == p then [menus[i].id] else []
  {
    assert menus[..i + 1][..i] == menus[..i];
  }

  lemma AppendRoot(roots: seq<nat>, nodes: map<nat, seq<nat>>, menus: seq<Menu>, i: nat)
    requires i < |menus| && NestedSoFar(roots, nodes, menus, i) && ListParent(IdSet(menus), menus[i]).None?
    ensures NestedSoFar(roots + [menus[i].id], nodes, menus, i + 1)
  {
    SiblingsStep(menus, IdSet(menus), i, None);
    forall n | n in nodes
      ensures nodes[n] == Siblings(menus[..i + 1], IdSet(menus), Some(n))
    {
      SiblingsStep(menus, IdSet(menus), i, Some(n));
    }
  }

  lemma AppendChild(roots: seq<nat>, nodes: map<nat, seq<nat>>, menus: seq<Menu>, i: nat, p: nat)
    requires i < |menus| && NestedSoFar(roots, nodes, menus, i) && ListParent(IdSet(menus), menus[i]) == Some(p)
    requires p in nodes
    ensures NestedSoFar(roots, nodes[p := nodes[p] + [menus[i].id]], menus, i + 1)
  {
    SiblingsStep(menus, IdSet(menus), i, None);
    forall n | n in nodes
      ensures nodes[p := nodes[p] + [menus[i].id]][n] == Siblings(menus[..i + 1], IdSet(menus), Some(n))
    {
      SiblingsStep(menus, IdSet(menus), i, Some(n));
    }
  }

  /** build_menu_tree: a node whose parent is not in the list becomes a root. */
  method BuildMenuTree(menus: seq<Menu>) returns (tree: Nested)
    ensures IsNesting(tree, menus)
  {
    var nodes: map<nat, seq<nat>> := EmptyNodes(menus);
    var roots: seq<nat> := [];
    for i := 0 to |menus|
      invariant NestedSoFar(roots, nodes, menus, i)
    {
      var m := menus[i];
      if m.parent.None? || m.parent.value !in nodes {
        AppendRoot(roots, nodes, menus, i);
        roots := roots + [m.id];
      } else {
        AppendChild(roots, nodes, menus, i, m.parent.value);
        nodes := nodes[m.parent.value := nodes[m.parent.value] + [m.id]];
      }
    }
    assert menus[..|menus|] == menus;
    tree := Nested(roots, nodes);
  }

  // ---------------------------------------------------------------- the nesting is a forest over the list

  /** The parent column of the list itself. */
  function Column(menus: seq<Menu>, ids: set<nat>): Parents {
    if menus == [] then map[]
    else Column(menus[..|menus| - 1], ids)[menus[|menus| - 1].id := ListParent(ids, menus[|menus| - 1])]
  }

  /** Depth-first listing; `fuel` bounds the number of levels. */
  function Flatten(tree: Nested, nodes: seq<nat>, fuel: nat): seq<nat>
    decreases fuel, |nodes|
  {
    if fuel == 0 || nodes == [] then []
    else [nodes[0]] + Flatten(tree, tree.ChildrenOf(nodes[0]), fuel - 1) + Flatten(tree, nodes[1..], fuel)
  }

  ghost predicate NoRepeats(s: seq<nat>) {
    forall i, j :: 0 <= i < j < |s| ==> s[i] != s[j]
  }

  lemma {:induction false} ColumnKeys(menus: seq<Menu>, ids: set<nat>)
    ensures Column(menus, ids).Keys == IdSet(menus)
    ensures forall i :: 0 <= i < |menus| ==> menus[i].id in IdSet(menus)
    ensures forall n :: n in Column(menus, ids) && Column(menus, ids)[n].Some? ==> Column(menus, ids)[n].value in ids
  {
    if menus != [] {
      ColumnKeys(menus[..|menus| - 1], ids);
      assert forall i :: 0 <= i < |menus| - 1 ==> menus[..|menus| - 1][i] == menus[i];
    }
  }

  lemma {:induction false} IdIsListed(menus: seq<Menu>, n: nat) returns (i: nat)
    requires n in IdSet(menus)
    ensures i < |menus| && menus[i].id == n
  {
    if menus[|menus| - 1].id == n {
      i := |menus| - 1;
    } else {
      i := IdIsListed(menus[..|menus| - 1], n);
    }
  }

  lemma LastIdIsNew(menus: seq<Menu>)
    requires DistinctIds(menus) && menus != []
    ensures menus[|menus| - 1].id !in IdSet(menus[..|menus| - 1])
  {
    if menus[|menus| - 1].id in IdSet(menus[..|menus| - 1]) {
      var _ := IdIsListed(menus[..|menus| - 1], menus[|menus| - 1].id);
    }
  }

  lemma {:induction false} SiblingsAreRows(menus: seq<Menu>, ids: set<nat>, p: Option<nat>)
    requires DistinctIds(menus)
    ensures NoRepeats(Siblings(menus, ids, p))
    ensures forall n :: n in Siblings(menus, ids, p) <==> n in Column(menus, ids) && Column(menus, ids)[n] == p
  {
    if menus != [] {
      var before, m := menus[..|menus| - 1], menus[|menus| - 1];
      SiblingsAreRows(before, ids, p);
      ColumnKeys(before, ids);
      LastIdIsNew(menus);
      assert forall n :: n in Siblings(before, ids, p) ==> n != m.id;
    }
  }

  lemma {:induction false} SiblingIsListed(menus: seq<Menu>, ids: set<nat>, p: Option<nat>, a: nat) returns (i: nat)
    requires a < |Siblings(menus, ids, p)|
    ensures i < |menus| && menus[i].id == Siblings(menus, ids, p)[a]
  {
    var before := menus[..|menus| - 1];
    if a < |Siblings(before, ids, p)| {
      i := SiblingIsListed(before, ids, p, a);
    } else {
      i := |menus| - 1;
    }
  }

  /** Siblings stand in the order of the list. */
  lemma {:induction false} SiblingsKeepOrder(menus: seq<Menu>, ids: set<nat>, p: Option<nat>, a: nat, b: nat)
    returns (i: nat, j: nat)
    requires a < b < |Siblings(menus, ids, p)|
    ensures i < j < |menus| && menus[i].id == Siblings(menus, ids, p)[a] && menus[j].id == Siblings(menus, ids, p)[b]
  {
    var before := menus[..|menus| - 1];
    if b < |Siblings(before, ids, p)| {
      i, j := SiblingsKeepOrder(before, ids, p, a, b);
    } else {
      i := SiblingIsListed(before, ids, p, a);
      j := |menus| - 1;
    }
  }

  lemma {:induction false} SiblingsIff(menus: seq<Menu>, ids: set<nat>, p: Option<nat>, n: nat)
    ensures n in Siblings(menus, ids, p)
       <==> exists i :: 0 <= i < |menus| && menus[i].id == n
                        && p == if menus[i].parent.Some? && menus[i].parent.value in ids then menus[i].parent else None
  {
    if menus != [] {
      var before, last := menus[..|menus| - 1], menus[|menus| - 1];
      SiblingsIff(before, ids, p, n);
      assert forall i :: 0 <= i < |before| ==> before[i] == menus[i];
      if last.id == n && p == ListParent(ids, last) {
        assert menus[|menus| - 1].id == n;
      }
    }
  }

  lemma {:induction false} IdSetIff(menus: seq<Menu>, n: nat)
    ensures n in IdSet(menus) <==> exists i :: 0 <= i < |menus| && menus[i].id == n
  {
    if menus != [] {
      var before := menus[..|menus| - 1];
      IdSetIff(before, n);
      assert forall i :: 0 <= i < |before| ==> before[i] == menus[i];
      if menus[|menus| - 1].id == n {
        assert menus[|menus| - 1].id == n;
      }
    }
  }

  ghost predicate IsListed(menus: seq<Menu>, n: nat) {
    exists i :: 0 <= i < |menus| && menus[i].id == n
  }

  /** A node for each menu; a child names the node as its parent, and the parent of a root is not listed. */
  lemma TreeMeans(tree: Nested, menus: seq<Menu>, n: nat, p: nat)
    requires IsNesting(tree, menus)
    ensures p in tree.children <==> IsListed(menus, p)
    ensures p in tree.children ==>
              (n in tree.children[p]
               <==> exists i :: 0 <= i < |menus| && menus[i].id == n && menus[i].parent == Some(p))
    ensures n in tree.roots
       <==> exists i :: 0 <= i < |menus| && menus[i].id == n
                        && (menus[i].parent.Some? ==> !IsListed(menus, menus[i].parent.value))
  {
    IdSetIff(menus, p);
    SiblingsIff(menus, IdSet(menus), Some(p), n);
    SiblingsIff(menus, IdSet(menus), None, n);
    forall i | 0 <= i < |menus| && menus[i].parent.Some?
      ensures menus[i].parent.value in IdSet(menus) <==> IsListed(menus, menus[i].parent.value)
    {
      IdSetIff(menus, menus[i].parent.value);
    }
  }

  /** How many of `nodes` are fewer than `fuel` parents above `x` (or `x` itself). */
  ghost function CountAbove(g: Parents, nodes: seq<nat>, x: nat, fuel: nat): nat {
    if nodes == [] then 0 else (if NearAbove(g, nodes[0], x, fuel) then 1 else 0) + CountAbove(g, nodes[1..], x, fuel)
  }

  ghost predicate NearAbove(g: Parents, a: nat, x: nat, fuel: nat) {
    exists j :: 0 <= j < fuel && Ancestor(g, x, j) == Some(a)
  }

  lemma {:induction false} NoneAbove(g: Parents, nodes: seq<nat>, x: nat, fuel: nat)
    requires forall c :: c in nodes ==> !NearAbove(g, c, x, fuel)
    ensures CountAbove(g, nodes, x, fuel) == 0
  {
    if nodes != [] {
      NoneAbove(g, nodes[1..], x, fuel);
    }
  }

  lemma {:induction false} OneAbove(g: Parents, nodes: seq<nat>, x: nat, fuel: nat, d: nat)
    requires NoRepeats(nodes) && d in nodes && NearAbove(g, d, x, fuel)
    requires forall c :: c in nodes && c != d ==> !NearAbove(g, c, x, fuel)
    ensures CountAbove(g, nodes, x, fuel) == 1
  {
    if nodes[0] == d {
      NoneAbove(g, nodes[1..], x, fuel);
    } else {
      OneAbove(g, nodes[1..], x, fuel, d);
    }
  }

  /** A child that is near above `x` is the row just before its parent on the chain of `x`. */
  lemma ChildHeight(g: Parents, d: nat, c: nat, x: nat, fuel: nat, j: nat)
    requires Rooted(g, x) && d in g && g[d] == Some(c) && NearAbove(g, d, x, fuel) && Ancestor(g, x, j) == Some(c)
    ensures j > 0 && Ancestor(g, x, j - 1) == Some(d)
  {
    var i :| 0 <= i < fuel && Ancestor(g, x, i) == Some(d);
    assert Ancestor(g, x, i + 1) == Some(c);
    if i + 1 < j {
      RootedChainIsInjective(g, x, i + 1, j);
    } else if j < i + 1 {
      RootedChainIsInjective(g, x, j, i + 1);
    }
  }

  /** A node lists `x` once if it is near above `x`: either it is `x`, or exactly one of its children is near above. */
  lemma NodeCount(g: Parents, children: seq<nat>, c: nat, x: nat, fuel: nat)
    requires x in g && Rooted(g, x) && fuel > 0 && NoRepeats(children) && Closed(g)
    requires forall n :: n in children <==> n in g && g[n] == Some(c)
    ensures (if x == c then 1 else 0) + CountAbove(g, children, x, fuel - 1)
         == if NearAbove(g, c, x, fuel) then 1 else 0
  {
    assert Ancestor(g, x, 0) == Some(x);
    if NearAbove(g, c, x, fuel) {
      var j :| 0 <= j < fuel && Ancestor(g, x, j) == Some(c);
      forall e | e in children && NearAbove(g, e, x, fuel - 1)
        ensures j > 0 && Ancestor(g, x, j - 1) == Some(e)
      {
        ChildHeight(g, e, c, x, fuel - 1, j);
      }
      if j == 0 {
        NoneAbove(g, children, x, fuel - 1);
      } else {
        RootedChainIsInjective(g, x, 0, j);
        AncestorsAreRows(g, x, j - 1);
        var d := Ancestor(g, x, j - 1).value;
        assert NearAbove(g, d, x, fuel - 1);
        OneAbove(g, children, x, fuel - 1, d);
      }
    } else {
      forall e | e in children
        ensures !NearAbove(g, e, x, fuel - 1)
      {
        if NearAbove(g, e, x, fuel - 1) {
          var i :| 0 <= i < fuel - 1 && Ancestor(g, x, i) == Some(e);
          assert Ancestor(g, x, i + 1) == Some(c);
        }
      }
      NoneAbove(g, children, x, fuel - 1);
    }
  }

  lemma ConcatCount(c: nat, a: seq<nat>, b: seq<nat>, x: nat)
    ensures multiset([c] + a + b)[x] == (if x == c then 1 else 0) + multiset(a)[x] + multiset(b)[x]
  {
    assert multiset([c] + a + b) == multiset{c} + multiset(a) + multiset(b);
  }

  /** The children list of a row holds each row below it once. */
  ghost predicate ListsChildren(children: seq<nat>, g: Parents, c: nat) {
    NoRepeats(children) && forall n :: n in children <==> n in g && g[n] == Some(c)
  }

  ghost predicate ChildrenMatch(tree: Nested, g: Parents) {
    forall c :: c in g ==> ListsChildren(tree.ChildrenOf(c), g, c)
  }

  lemma NestingMatches(tree: Nested, menus: seq<Menu>)
    requires IsNesting(tree, menus) && DistinctIds(menus)
    ensures ChildrenMatch(tree, Column(menus, IdSet(menus))) && Closed(Column(menus, IdSet(menus)))
  {
    ColumnKeys(menus, IdSet(menus));
    forall c | c in Column(menus, IdSet(menus))
      ensures ListsChildren(tree.ChildrenOf(c), Column(menus, IdSet(menus)), c)
    {
      SiblingsAreRows(menus, IdSet(menus), Some(c));
    }
  }

  /** How often `x` is listed. */
  function Listings(tree: Nested, nodes: seq<nat>, fuel: nat, x: nat): nat {
    multiset(Flatten(tree, nodes, fuel))[x]
  }

  lemma ListingsStep(tree: Nested, nodes: seq<nat>, fuel: nat, x: nat)
    requires nodes != []
    ensures Listings(tree, nodes, fuel, x)
         == if fuel == 0 then 0
            else (if x == nodes[0] then 1 else 0)
                 + Listings(tree, tree.ChildrenOf(nodes[0]), fuel - 1, x) + Listings(tree, nodes[1..], fuel, x)
  {
    if fuel > 0 {
      ConcatCount(nodes[0], Flatten(tree, tree.ChildrenOf(nodes[0]), fuel - 1), Flatten(tree, nodes[1..], fuel), x);
    }
  }

  lemma CountStep(g: Parents, nodes: seq<nat>, x: nat, fuel: nat)
    requires nodes != []
    ensures CountAbove(g, nodes, x, fuel) == (if NearAbove(g, nodes[0], x, fuel) then 1 else 0)
         + CountAbove(g, nodes[1..], x, fuel)
  {
  }

  ghost predicate AllRows(g: Parents, nodes: seq<nat>) {
    forall n :: n in nodes ==> n in g
  }

  lemma AllRowsStep(tree: Nested, g: Parents, nodes: seq<nat>)
    requires ChildrenMatch(tree, g) && AllRows(g, nodes) && nodes != []
    ensures nodes[0] in g && AllRows(g, nodes[1..]) && AllRows(g, tree.ChildrenOf(nodes[0]))
    ensures ListsChildren(tree.ChildrenOf(nodes[0]), g, nodes[0])
  {
    assert nodes[0] in nodes && ListsChildren(tree.ChildrenOf(nodes[0]), g, nodes[0]);
  }

  lemma {:induction false} FlattenCounts(tree: Nested, g: Parents, nodes: seq<nat>, x: nat, fuel: nat)
    requires ChildrenMatch(tree, g) && Closed(g) && x in g && Rooted(g, x) && AllRows(g, nodes)
    ensures Listings(tree, nodes, fuel, x) == CountAbove(g, nodes, x, fuel)
    decreases fuel, |nodes|
  {
    if fuel == 0 {
      NoneAbove(g, nodes, x, 0);
    } else if nodes != [] {
      var children := tree.ChildrenOf(nodes[0]);
      AllRowsStep(tree, g, nodes);
      FlattenCounts(tree, g, children, x, fuel - 1);
      FlattenCounts(tree, g, nodes[1..], x, fuel);
      CountStep(g, nodes, x, fuel);
      ListingsStep(tree, nodes, fuel, x);
      NodeCount(g, children, nodes[0], x, fuel);
    }
  }

  lemma {:induction false} IdsOnce(menus: seq<Menu>, x: nat)
    requires DistinctIds(menus)
    ensures multiset(Ids(menus))[x] == if x in IdSet(menus) then 1 else 0
  {
    if menus != [] {
      var before := menus[..|menus| - 1];
      IdsOnce(before, x);
      LastIdIsNew(menus);
    }
  }

  lemma {:induction false} FlattenStaysInside(tree: Nested, g: Parents, nodes: seq<nat>, fuel: nat)
    requires ChildrenMatch(tree, g) && AllRows(g, nodes)
    ensures AllRows(g, Flatten(tree, nodes, fuel))
    decreases fuel, |nodes|
  {
    if fuel > 0 && nodes != [] {
      AllRowsStep(tree, g, nodes);
      FlattenStaysInside(tree, g, tree.ChildrenOf(nodes[0]), fuel - 1);
      FlattenStaysInside(tree, g, nodes[1..], fuel);
    }
  }

  lemma LastAncestor(g: Parents, x: nat) returns (k: nat)
    requires Closed(g) && x in g && Rooted(g, x)
    ensures k < |g| && Ancestor(g, x, k).Some? && Ancestor(g, x, k + 1).None?
  {
    ForestDepth(g, x);
    k := 0;
    while Ancestor(g, x, k + 1).Some?
      invariant Ancestor(g, x, k).Some? && k < |g|
      decreases |g| - k
    {
      k := k + 1;
    }
  }

  lemma RootEndsChain(g: Parents, c: nat, x: nat, fuel: nat, k: nat)
    requires c in g && g[c] == None && NearAbove(g, c, x, fuel)
    requires Ancestor(g, x, k).Some? && Ancestor(g, x, k + 1).None?
    ensures Ancestor(g, x, k) == Some(c)
  {
    var i :| 0 <= i < fuel && Ancestor(g, x, i) == Some(c);
    assert Ancestor(g, x, i + 1).None?;
    if i < k {
      EndedStaysEnded(g, x, i + 1, k);
    } else if k < i {
      EndedStaysEnded(g, x, k + 1, i);
    }
  }

  /** The end of the chain of a row is the one root above it. */
  lemma OneRootAbove(g: Parents, roots: seq<nat>, x: nat)
    requires Closed(g) && x in g && Rooted(g, x) && NoRepeats(roots)
    requires forall n :: n in roots <==> n in g && g[n] == None
    ensures CountAbove(g, roots, x, |g|) == 1
  {
    var k := LastAncestor(g, x);
    var root := Ancestor(g, x, k).value;
    AncestorsAreRows(g, x, k);
    forall c | c in roots && NearAbove(g, c, x, |g|)
      ensures c == root
    {
      RootEndsChain(g, c, x, |g|, k);
    }
    assert NearAbove(g, root, x, |g|);
    OneAbove(g, roots, x, |g|, root);
  }

  /**
   For acyclic parents the nesting loses nothing and repeats nothing: listing
   the built tree depth-first is a permutation of the input.
  */
  lemma NestingIsPermutation(tree: Nested, menus: seq<Menu>)
    requires IsNesting(tree, menus) && DistinctIds(menus) && Acyclic(Column(menus, IdSet(menus)))
    ensures multiset(Flatten(tree, tree.roots, |tree.children|)) == multiset(Ids(menus))
  {
    var g := Column(menus, IdSet(menus));
    var flat: seq<nat> := Flatten(tree, tree.roots, |tree.children|);
    var listed: multiset<nat>, wanted: multiset<nat> := multiset(flat), multiset(Ids(menus));
    ColumnKeys(menus, IdSet(menus));
    SiblingsAreRows(menus, IdSet(menus), None);
    NestingMatches(tree, menus);
    FlattenStaysInside(tree, g, tree.roots, |tree.children|);
    assert |g| == |g.Keys| == |tree.children.Keys| == |tree.children|;
    forall x: nat
      ensures listed[x] == wanted[x]
    {
      IdsOnce(menus, x);
      if x in IdSet(menus) {
        assert x in g && Rooted(g, x);
        FlattenCounts(tree, g, tree.roots, x, |tree.children|);
        OneRootAbove(g, tree.roots, x);
      } else if x in flat {
        assert false;
      }
    }
  }

  /** A list taken from an acyclic table is acyclic. */
  lemma ListOfForestIsForest(t: Table, menus: seq<Menu>)
    requires Valid(t) && DistinctIds(menus) && Acyclic(ParentColumn(t))
    requires forall i :: 0 <= i < |menus| ==> menus[i].id in t && t[menus[i].id] == menus[i]
    ensures Acyclic(Column(menus, IdSet(menus)))
  {
    var g, h := ParentColumn(t), Column(menus, IdSet(menus));
    forall n | n in h
      ensures Rooted(h, n)
    {
      ColumnKeys(menus, IdSet(menus));
      var i := IdIsListed(menus, n);
      assert n in g && Rooted(g, n);
      var k: nat :| Ancestor(g, n, k).None?;
      ChainShortens(t, menus, n, k);
    }
  }

  lemma {:induction false} ColumnEntry(menus: seq<Menu>, ids: set<nat>, i: nat)
    requires DistinctIds(menus) && i < |menus|
    ensures menus[i].id in Column(menus, ids) && Column(menus, ids)[menus[i].id] == ListParent(ids, menus[i])
  {
    if i < |menus| - 1 {
      ColumnEntry(menus[..|menus| - 1], ids, i);
    }
  }

  /** The tree a user gets: a menu stands at the top exactly when it has no parent or its parent is inactive. */
  lemma RootsLackActiveParents(t: Table, granted: set<nat>, menus: seq<Menu>, tree: Nested, i: nat)
    requires Valid(t) && ShallowGrants(t, granted) && DistinctIds(menus) && IdSet(menus) == MyMenus(t, granted)
    requires forall j :: 0 <= j < |menus| ==> menus[j].id in t && t[menus[j].id] == menus[j]
    requires IsNesting(tree, menus) && i < |menus|
    ensures menus[i].id in tree.roots <==> menus[i].parent.None? || !t[menus[i].parent.value].isActive
  {
    ColumnKeys(menus, IdSet(menus));
    SiblingsAreRows(menus, IdSet(menus), None);
    ColumnEntry(menus, IdSet(menus), i);
    OnlyInactiveParentsPromote(t, granted, menus[i].id);
  }

  lemma {:induction false} ChainShortens(t: Table, menus: seq<Menu>, n: nat, k: nat)
    requires Valid(t) && DistinctIds(menus)
    requires forall i :: 0 <= i < |menus| ==> menus[i].id in t && t[menus[i].id] == menus[i]
    ensures
      var g, h := ParentColumn(t), Column(menus, IdSet(menus));
      Ancestor(h, n, k).None? || Ancestor(h, n, k) == Ancestor(g, n, k)
    decreases k
  {
    if k > 0 {
      var h := Column(menus, IdSet(menus));
      ChainShortens(t, menus, n, k - 1);
      if Ancestor(h, n, k - 1).Some? && Ancestor(h, n, k - 1).value in h {
        ColumnKeys(menus, IdSet(menus));
        var i := IdIsListed(menus, Ancestor(h, n, k - 1).value);
        ColumnEntry(menus, IdSet(menus), i);
      }
    }
  }
}
