/**
 The department tree: the cycle check before a department gets a new parent, the
 path shown for a department, and the bounded expansion of a subtree.
*/
module Departments {
  import opened Common
  import opened Hierarchy

  const DEPTH_LIMIT := 32

  datatype Department = Department(company: nat, parent: Option<nat>, name: string)

  type Table = map<nat, Department>

  function ParentColumn(t: Table): Parents {
    map n | n in t :: t[n].parent
  }

  /** Foreign keys hold: a parent is a row of the table. */
  ghost predicate Valid(t: Table) {
    forall n :: n in t && t[n].parent.Some? ==> t[n].parent.value in t
  }

  lemma ColumnIsClosed(t: Table)
    requires Valid(t)
    ensures Closed(ParentColumn(t)) && ParentColumn(t).Keys == t.Keys
  {
  }

  // ---------------------------------------------------------------- reparenting

  /** What a request sets; an absent field keeps the instance's value. */
  datatype Change = Change(company: Option<nat>, parent: Option<Option<nat>>)

  datatype Error = CompanyRequired | OtherCompany | CircularParent

  function NewParent(t: Table, instance: Option<nat>, c: Change): Option<nat>
    requires instance.Some? ==> instance.value in t
  {
    if c.parent.Some? then c.parent.value else if instance.Some? then t[instance.value].parent else None
  }

  function NewCompany(t: Table, instance: Option<nat>, c: Change): Option<nat>
    requires instance.Some? ==> instance.value in t
  {
    if c.company.Some? then c.company else if instance.Some? then Some(t[instance.value].company) else None
  }

  /** The parent column after the change is saved. */
  function Reparented(t: Table, instance: nat, parent: nat): Parents {
    ParentColumn(t)[instance := Some(parent)]
  }

  /** The chain from the parent ends, and does so without meeting the instance. */
  ghost predicate WalkEndsOutside(g: Parents, instance: nat, parent: nat) {
    Rooted(g, parent) && !IsAncestor(g, instance, parent)
  }

  /** What validate lets through. */
  ghost predicate PassesCheck(t: Table, instance: Option<nat>, c: Change)
    requires instance.Some? ==> instance.value in t
    requires NewParent(t, instance, c).Some? ==> NewParent(t, instance, c).value in t
  {
    var parent := NewParent(t, instance, c);
    parent.Some? ==>
      && NewCompany(t, instance, c) == Some(t[parent.value].company)
      && (instance.Some? ==> WalkEndsOutside(ParentColumn(t), instance.value, parent.value))
  }

  /**
   DepartmentSerializer.validate: walk up from the new parent and refuse to meet
   the department itself or any row a second time.  It stops on every table,
   also on one that already has a cycle.
  */
  method Validate(t: Table, instance: Option<nat>, c: Change) returns (error: Option<Error>)
    requires Valid(t) && (instance.Some? ==> instance.value in t)
    requires NewParent(t, instance, c).Some? ==> NewParent(t, instance, c).value in t
    ensures error.None? <==> PassesCheck(t, instance, c)
    ensures
      var parent, company := NewParent(t, instance, c), NewCompany(t, instance, c);
      && (error == Some(CompanyRequired) <==> parent.Some? && company.None?)
      && (error == Some(OtherCompany) <==> parent.Some? && company.Some? && t[parent.value].company != company.value)
      && (error == Some(CircularParent) <==>
            && parent.Some? && company.Some? && t[parent.value].company == company.value && instance.Some?
            && !WalkEndsOutside(ParentColumn(t), instance.value, parent.value))
  {
    var parent, company := NewParent(t, instance, c), NewCompany(t, instance, c);
    if parent.None? {
      return None;
    }
    if company.None? {
      return Some(CompanyRequired);
    }
    if t[parent.value].company != company.value {
      return Some(OtherCompany);
    }
    if instance.None? {
      return None;
    }
    ghost var g := ParentColumn(t);
    ColumnIsClosed(t);
    var node := parent;
    var seen := {instance.value};
    ghost var k: nat := 0;
    while node.Some?
      invariant node == Ancestor(g, parent.value, k)
      invariant node.Some? ==> node.value in t
      invariant seen == {instance.value} + Collect(g, parent.value, k) && seen <= t.Keys
      invariant instance.value !in Collect(g, parent.value, k)
      decreases t.Keys - seen, node.Some?
    {
      if node.value in seen {
        if node.value == instance.value {
          assert IsAncestor(g, instance.value, parent.value);
        } else {
          var i := CollectedAt(g, parent.value, k, node.value);
          if Rooted(g, parent.value) {
            RootedChainIsInjective(g, parent.value, i, k);
          }
        }
        return Some(CircularParent);
      }
      seen := seen + {node.value};
      node := t[node.value].parent;
      k := k + 1;
    }
    if IsAncestor(g, instance.value, parent.value) {
      var j: nat :| Ancestor(g, parent.value, j) == Some(instance.value);
      if j < k {
        InCollected(g, parent.value, j, k);
      } else {
        EndedStaysEnded(g, parent.value, k, j);
      }
    }
    error := None;
  }

  lemma {:induction false} InCollected(g: Parents, n: nat, j: nat, k: nat)
    requires j < k && Ancestor(g, n, j).Some?
    ensures Ancestor(g, n, j).value in Collect(g, n, k)
  {
    if j < k - 1 {
      InCollected(g, n, j, k - 1);
    }
  }

  /** The two columns differ at most in one row. */
  ghost predicate AgreeExcept(g: Parents, h: Parents, instance: nat) {
    forall n :: n != instance ==> (n in g <==> n in h) && (n in g ==> g[n] == h[n])
  }

  /** As long as a chain does not pass the changed row, it is the old chain. */
  lemma {:induction false} ChainUnchanged(g: Parents, h: Parents, instance: nat, n: nat, k: nat)
    requires AgreeExcept(g, h, instance) && forall j :: 0 <= j < k ==> Ancestor(g, n, j) != Some(instance)
    ensures Ancestor(h, n, k) == Ancestor(g, n, k)
  {
    if k > 0 {
      ChainUnchanged(g, h, instance, n, k - 1);
    }
  }

  lemma RootedFrom(g: Parents, n: nat, k: nat)
    requires Ancestor(g, n, k).Some? && Rooted(g, Ancestor(g, n, k).value)
    ensures Rooted(g, n)
  {
    var m: nat :| Ancestor(g, Ancestor(g, n, k).value, m).None?;
    AncestorPlus(g, n, k, m);
    assert Ancestor(g, n, k + m).None?;
  }

  lemma FirstMeeting(g: Parents, n: nat, a: nat, bound: nat) returns (k: nat)
    requires Ancestor(g, n, bound) == Some(a)
    ensures k <= bound && Ancestor(g, n, k) == Some(a)
    ensures forall j :: 0 <= j < k ==> Ancestor(g, n, j) != Some(a)
  {
    k := 0;
    while Ancestor(g, n, k) != Some(a)
      invariant k <= bound && forall j :: 0 <= j < k ==> Ancestor(g, n, j) != Some(a)
      decreases bound - k
    {
      k := k + 1;
    }
  }

  /** In a forest, giving a department a parent closes a cycle exactly when the department is above that parent. */
  lemma ReparentKeepsForestIff(t: Table, instance: nat, parent: nat)
    requires Valid(t) && instance in t && parent in t && Acyclic(ParentColumn(t))
    ensures Acyclic(Reparented(t, instance, parent)) <==> !IsAncestor(ParentColumn(t), instance, parent)
  {
    var g, h := ParentColumn(t), Reparented(t, instance, parent);
    if IsAncestor(g, instance, parent) {
      var bound: nat :| Ancestor(g, parent, bound) == Some(instance);
      var k := FirstMeeting(g, parent, instance, bound);
      ChainUnchanged(g, h, instance, parent, k);
      OneUp(h, instance, k);
      assert Ancestor(h, instance, k + 1) == Some(instance);
      CycleIsNotRooted(h, instance);
    } else {
      assert parent in g && Rooted(g, parent);
      var m: nat :| Ancestor(g, parent, m).None?;
      ChainUnchanged(g, h, instance, parent, m);
      assert Rooted(h, parent);
      OneUp(h, instance, 0);
      RootedFrom(h, instance, 1);
      forall n | n in h
        ensures Rooted(h, n)
      {
        if IsAncestor(g, instance, n) {
          var bound: nat :| Ancestor(g, n, bound) == Some(instance);
          var k := FirstMeeting(g, n, instance, bound);
          ChainUnchanged(g, h, instance, n, k);
          RootedFrom(h, n, k);
        } else {
          var j: nat :| Ancestor(g, n, j).None?;
          ChainUnchanged(g, h, instance, n, j);
        }
      }
    }
  }

  /** From a forest, the walk refuses a parent exactly when the saved table would have a row on a cycle. */
  lemma WalkRefusesExactlyCycles(t: Table, instance: nat, parent: nat)
    requires Valid(t) && instance in t && parent in t && Acyclic(ParentColumn(t))
    ensures WalkEndsOutside(ParentColumn(t), instance, parent) <==> Acyclic(Reparented(t, instance, parent))
    ensures !WalkEndsOutside(ParentColumn(t), instance, parent)
       <==> exists n :: n in t && OnCycle(Reparented(t, instance, parent), n)
  {
    ReparentKeepsForestIff(t, instance, parent);
    assert parent in ParentColumn(t);
    var h := Reparented(t, instance, parent);
    assert h.Keys == t.Keys && Closed(h);
    AcyclicIffNoCycle(h);
  }

  // ---------------------------------------------------------------- runs of requests

  /** Foreign keys hold and every chain of parents ends. */
  ghost predicate Forest(t: Table) {
    Valid(t) && Acyclic(ParentColumn(t))
  }

  /** A request of the department view; without an instance it creates the row `id`. */
  datatype Request = Request(id: nat, isNew: bool, change: Change, name: string) {
    function Instance(): Option<nat> { if isNew then None else Some(id) }
  }

  /** The request names existing rows, and validate raises nothing. */
  ghost predicate Accepted(t: Table, r: Request) {
    && (r.id in t <==> !r.isNew)
    && NewCompany(t, r.Instance(), r.change).Some?
    && (NewParent(t, r.Instance(), r.change).Some? ==> NewParent(t, r.Instance(), r.change).value in t)
    && PassesCheck(t, r.Instance(), r.change)
  }

  /** The row that is saved is the one that was validated. */
  function RowOf(t: Table, r: Request): Department
    requires (r.id in t <==> !r.isNew) && NewCompany(t, r.Instance(), r.change).Some?
  {
    Department(NewCompany(t, r.Instance(), r.change).value, NewParent(t, r.Instance(), r.change), r.name)
  }

  ghost function Perform(t: Table, r: Request): Table {
    if Accepted(t, r) then t[r.id := RowOf(t, r)] else t
  }

  ghost function RunAll(t: Table, rs: seq<Request>): Table
    decreases |rs|
  {
    if rs == [] then t else RunAll(Perform(t, rs[0]), rs[1..])
  }

  lemma {:induction false} NewRowIsNoAncestor(g: Parents, id: nat, n: nat, k: nat)
    requires Closed(g) && n in g && id !in g
    ensures Ancestor(g, n, k) != Some(id)
  {
    if Ancestor(g, n, k).Some? {
      AncestorsAreRows(g, n, k);
    }
  }

  lemma NewLeafKeepsForest(t: Table, id: nat, row: Department)
    requires Forest(t) && id !in t && (row.parent.Some? ==> row.parent.value in t)
    ensures Forest(t[id := row])
  {
    var g, h := ParentColumn(t), ParentColumn(t[id := row]);
    forall n | n in t
      ensures Rooted(h, n)
    {
      assert n in g && Rooted(g, n);
      var k: nat :| Ancestor(g, n, k).None?;
      forall j | 0 <= j < k
        ensures Ancestor(g, n, j) != Some(id)
      {
        NewRowIsNoAncestor(g, id, n, j);
      }
      ChainUnchanged(g, h, id, n, k);
    }
    RowIsRooted(h, id);
  }

  /** A row is on a chain that ends if its parent, if any, is. */
  lemma RowIsRooted(g: Parents, n: nat)
    requires n in g && (g[n].Some? ==> Rooted(g, g[n].value))
    ensures Rooted(g, n)
  {
    assert Ancestor(g, n, 0) == Some(n);
    assert Ancestor(g, n, 1) == g[n];
    if g[n].Some? {
      RootedFrom(g, n, 1);
    }
  }

  lemma DetachingKeepsForest(t: Table, id: nat, row: Department)
    requires Forest(t) && id in t && row.parent.None?
    ensures Forest(t[id := row])
  {
    var g, h := ParentColumn(t), ParentColumn(t[id := row]);
    RowIsRooted(h, id);
    forall n | n in h
      ensures Rooted(h, n)
    {
      assert n in g && Rooted(g, n);
      if IsAncestor(g, id, n) {
        var bound: nat :| Ancestor(g, n, bound) == Some(id);
        var k := FirstMeeting(g, n, id, bound);
        ChainUnchanged(g, h, id, n, k);
        RootedFrom(h, n, k);
      } else {
        var k: nat :| Ancestor(g, n, k).None?;
        ChainUnchanged(g, h, id, n, k);
      }
    }
  }

  /**
   Saving a row, whenever it was validated: the forest is kept exactly when by
   then the row is not above its new parent.
  */
  lemma SaveKeepsForestIff(t: Table, id: nat, row: Department)
    requires Forest(t) && id in t && (row.parent.Some? ==> row.parent.value in t)
    ensures Forest(t[id := row])
       <==> row.parent.None? || !IsAncestor(ParentColumn(t), id, row.parent.value)
  {
    if row.parent.None? {
      DetachingKeepsForest(t, id, row);
    } else {
      ReparentKeepsForestIff(t, id, row.parent.value);
      assert ParentColumn(t[id := row]) == Reparented(t, id, row.parent.value);
    }
  }

  /** Any run of requests, each validated and saved before the next: departments stay a forest. */
  lemma {:induction false} RequestsKeepForest(t: Table, rs: seq<Request>)
    requires Forest(t)
    ensures Forest(RunAll(t, rs))
    decreases |rs|
  {
    if rs != [] {
      var r := rs[0];
      if Accepted(t, r) {
        if r.isNew {
          NewLeafKeepsForest(t, r.id, RowOf(t, r));
        } else {
          SaveKeepsForestIff(t, r.id, RowOf(t, r));
        }
      }
      RequestsKeepForest(Perform(t, r), rs[1..]);
    }
  }

  lemma ComesBelow(g: Parents, h: Parents, n1: nat, p1: nat, n2: nat, p2: nat)
    requires AgreeExcept(g, h, n1) && n1 in h && h[n1] == Some(p1)
    requires !IsAncestor(g, n1, p1) && IsAncestor(g, n1, p2) && IsAncestor(g, n2, p1)
    ensures IsAncestor(h, n2, p2)
  {
    var bound: nat :| Ancestor(g, p2, bound) == Some(n1);
    var k := FirstMeeting(g, p2, n1, bound);
    var j: nat :| Ancestor(g, p1, j) == Some(n2);
    ChainUnchanged(g, h, n1, p2, k);
    ChainUnchanged(g, h, n1, p1, j);
    assert Ancestor(h, p2, k + 1) == Some(p1);
    AncestorPlus(h, p2, k + 1, j);
  }

  lemma CameBelow(g: Parents, h: Parents, n1: nat, p1: nat, n2: nat, p2: nat, m: nat)
    requires AgreeExcept(g, h, n1) && n1 in h && h[n1] == Some(p1)
    requires !IsAncestor(g, n1, p1) && !IsAncestor(g, n2, p2) && Ancestor(h, p2, m) == Some(n2) && n1 != n2
    ensures IsAncestor(g, n1, p2) && IsAncestor(g, n2, p1)
  {
    if bound: nat :| bound < m && Ancestor(g, p2, bound) == Some(n1) {
      var k := FirstMeeting(g, p2, n1, bound);
      ChainUnchanged(g, h, n1, p2, k);
      assert Ancestor(h, p2, k + 1) == Some(p1);
      AncestorPlus(h, p2, k + 1, m - k - 1);
      ChainUnchanged(g, h, n1, p1, m - k - 1);
    } else {
      ChainUnchanged(g, h, n1, p2, m);
    }
  }

  /**
   After the first of two changes, a row is above the second parent if the
   chain passes the first row and goes on from there.
  */
  lemma AboveAfterFirst(t: Table, n1: nat, p1: nat, n2: nat, p2: nat)
    requires n1 in t && n1 != n2
    requires !IsAncestor(ParentColumn(t), n1, p1) && !IsAncestor(ParentColumn(t), n2, p2)
    ensures IsAncestor(Reparented(t, n1, p1), n2, p2)
       <==> IsAncestor(ParentColumn(t), n1, p2) && IsAncestor(ParentColumn(t), n2, p1)
  {
    var g, h := ParentColumn(t), Reparented(t, n1, p1);
    if IsAncestor(g, n1, p2) && IsAncestor(g, n2, p1) {
      ComesBelow(g, h, n1, p1, n2, p2);
    }
    if m: nat :| Ancestor(h, p2, m) == Some(n2) {
      CameBelow(g, h, n1, p1, n2, p2, m);
    }
  }

  /**
   Two requests that are both validated before either is saved: the departments
   stay a forest exactly when they do not move each of the two below the other.
  */
  lemma OverlappingReparentsIff(t: Table, n1: nat, p1: nat, n2: nat, p2: nat)
    requires Forest(t) && n1 in t && p1 in t && n2 in t && p2 in t && n1 != n2
    requires WalkEndsOutside(ParentColumn(t), n1, p1) && WalkEndsOutside(ParentColumn(t), n2, p2)
    ensures
      var both := t[n1 := t[n1].(parent := Some(p1))][n2 := t[n2].(parent := Some(p2))];
      Forest(both) <==> !(IsAncestor(ParentColumn(t), n1, p2) && IsAncestor(ParentColumn(t), n2, p1))
  {
    var first := t[n1 := t[n1].(parent := Some(p1))];
    SaveKeepsForestIff(t, n1, first[n1]);
    assert ParentColumn(first) == Reparented(t, n1, p1);
    AboveAfterFirst(t, n1, p1, n2, p2);
    SaveKeepsForestIff(first, n2, t[n2].(parent := Some(p2)));
  }

  // ---------------------------------------------------------------- the path of a department

  ghost predicate HasDepth(g: Parents, n: nat, d: nat) {
    Ancestor(g, n, d).None? && forall j :: 0 <= j < d ==> Ancestor(g, n, j).Some?
  }

  ghost predicate NoStopBefore(g: Parents, n: nat, k: nat) {
    forall j :: 0 <= j < k ==> Ancestor(g, n, j).Some? && Ancestor(g, n, j).value !in Collect(g, n, j)
  }

  lemma NoStopHere(g: Parents, n: nat, k: nat)
    requires NoStopBefore(g, n, k) && Ancestor(g, n, k).Some? && Ancestor(g, n, k).value !in Collect(g, n, k)
    ensures NoStopBefore(g, n, k + 1)
  {
  }

  /** k is where the chain first ends or comes back to a row. */
  ghost predicate StopsAfter(g: Parents, n: nat, k: nat) {
    && NoStopBefore(g, n, k)
    && (Ancestor(g, n, k).None? || Ancestor(g, n, k).value in Collect(g, n, k))
  }

  /** Names from the department up, d of them. */
  function NamesUp(t: Table, n: nat, d: nat): seq<string> {
    if d == 0 then []
    else
      NamesUp(t, n, d - 1)
        + match Ancestor(ParentColumn(t), n, d - 1) case None => [] case Some(a) => if a in t then [t[a].name] else []
  }

  function Reversed(s: seq<string>): seq<string> {
    if s == [] then [] else [s[|s| - 1]] + Reversed(s[..|s| - 1])
  }

  function Join(parts: seq<string>): string {
    if parts == [] then "" else if |parts| == 1 then parts[0] else parts[0] + " / " + Join(parts[1..])
  }

  /** The names of the first k rows of the chain, topmost first. */
  function PathOf(t: Table, n: nat, k: nat): string {
    Join(Reversed(NamesUp(t, n, k)))
  }

  /**
   get_full_path: on every table the names of the rows up to where the chain
   first ends or repeats; for a department whose chain ends, exactly the names
   from the root down to it.
  */
  method GetFullPath(t: Table, n: nat) returns (path: string)
    requires Valid(t) && n in t
    ensures exists k: nat :: StopsAfter(ParentColumn(t), n, k) && path == PathOf(t, n, k)
    ensures forall d :: HasDepth(ParentColumn(t), n, d) ==> path == PathOf(t, n, d)
  {
    ghost var g := ParentColumn(t);
    ColumnIsClosed(t);
    var names: seq<string> := [];
    var node := Some(n);
    var seen: set<nat> := {};
    ghost var k: nat := 0;
    while node.Some? && node.value !in seen
      invariant node == Ancestor(g, n, k)
      invariant node.Some? ==> node.value in t
      invariant seen == Collect(g, n, k) && seen <= t.Keys
      invariant NoStopBefore(g, n, k)
      invariant names == NamesUp(t, n, k)
      decreases t.Keys - seen
    {
      NoStopHere(g, n, k);
      seen := seen + {node.value};
      names := names + [t[node.value].name];
      node := t[node.value].parent;
      k := k + 1;
    }
    StopIsDepth(g, n, k);
    path := Join(Reversed(names));
    assert StopsAfter(g, n, k) && path == PathOf(t, n, k);
  }

  /** Where the chain ends, that is where the walk stops. */
  lemma StopIsDepth(g: Parents, n: nat, k: nat)
    requires StopsAfter(g, n, k)
    ensures forall d :: HasDepth(g, n, d) ==> d == k
  {
    forall d | HasDepth(g, n, d)
      ensures d == k
    {
      if Ancestor(g, n, k).Some? {
        var i := CollectedAt(g, n, k, Ancestor(g, n, k).value);
        assert Rooted(g, n);
        RootedChainIsInjective(g, n, i, k);
      }
    }
  }

  lemma {:induction false} NamesUpOfChild(t: Table, n: nat, p: nat, d: nat)
    requires n in t && t[n].parent == Some(p)
    ensures NamesUp(t, n, d + 1) == [t[n].name] + NamesUp(t, p, d)
  {
    var g := ParentColumn(t);
    assert Ancestor(g, n, 0) == Some(n);
    if d == 0 {
      assert NamesUp(t, n, 0) == [] && NamesUp(t, p, 0) == [];
    } else {
      NamesUpOfChild(t, n, p, d - 1);
      OneUp(g, n, d - 1);
    }
  }

  lemma {:induction false} ReversedPrepend(x: string, s: seq<string>)
    ensures Reversed([x] + s) == Reversed(s) + [x]
  {
    if s == [] {
      assert [x] + s == [x] && [x][..0] == [];
    } else {
      assert ([x] + s)[..|s|] == [x] + s[..|s| - 1];
      ReversedPrepend(x, s[..|s| - 1]);
    }
  }

  lemma {:induction false} JoinAppend(s: seq<string>, x: string)
    ensures Join(s + [x]) == if s == [] then x else Join(s) + " / " + x
  {
    if |s| > 1 {
      assert (s + [x])[1..] == s[1..] + [x];
      JoinAppend(s[1..], x);
    } else if |s| == 1 {
      assert (s + [x])[1..] == [x];
    } else {
      assert s + [x] == [x];
    }
  }

  lemma {:induction false} ReversedIsEmptyIff(s: seq<string>)
    ensures Reversed(s) == [] <==> s == []
  {
  }

  /** The path of a root is its name; below, it is the path of the parent, a separator, and the name. */
  lemma PathExtendsParent(t: Table, n: nat, d: nat)
    requires Valid(t) && n in t && HasDepth(ParentColumn(t), n, d)
    ensures d > 0
    ensures t[n].parent.None? ==> d == 1 && PathOf(t, n, d) == t[n].name
    ensures t[n].parent.Some? ==>
              var p := t[n].parent.value;
              && d > 1 && p in t && HasDepth(ParentColumn(t), p, d - 1)
              && PathOf(t, n, d) == PathOf(t, p, d - 1) + " / " + t[n].name
  {
    var g := ParentColumn(t);
    assert Ancestor(g, n, 0) == Some(n) && Ancestor(g, n, 1) == t[n].parent;
    if t[n].parent.None? {
      assert d == 1;
      assert NamesUp(t, n, 0) == [] && NamesUp(t, n, 1) == [t[n].name];
      ReversedPrepend(t[n].name, []);
      assert [t[n].name] + [] == [t[n].name] && Reversed([]) + [t[n].name] == [t[n].name];
    } else {
      var p := t[n].parent.value;
      assert d > 1;
      forall j | 0 <= j <= d - 1
        ensures Ancestor(g, p, j) == Ancestor(g, n, j + 1)
      {
        OneUp(g, n, j);
      }
      NamesUpOfChild(t, n, p, d - 1);
      var up := NamesUp(t, p, d - 1);
      ReversedPrepend(t[n].name, up);
      JoinAppend(Reversed(up), t[n].name);
      assert Ancestor(g, p, 0) == Some(p);
      FirstNameIsThere(t, p, d - 1);
      ReversedIsEmptyIff(up);
    }
  }

  lemma {:induction false} FirstNameIsThere(t: Table, n: nat, d: nat)
    requires n in t && d > 0
    ensures NamesUp(t, n, d) != []
  {
    if d > 1 {
      FirstNameIsThere(t, n, d - 1);
    } else {
      assert Ancestor(ParentColumn(t), n, 0) == Some(n);
    }
  }

  // ---------------------------------------------------------------- what a request changes

  /** A request that names neither a parent nor a company is let through, and changes the name alone. */
  lemma RenamingMovesNothing(t: Table, id: nat, name: string)
    requires Forest(t) && id in t
    requires t[id].parent.Some? ==> t[t[id].parent.value].company == t[id].company
    ensures Perform(t, Request(id, false, Change(None, None), name)) == t[id := t[id].(name := name)]
  {
    if t[id].parent.Some? {
      var g, p := ParentColumn(t), t[id].parent.value;
      assert id in g && Rooted(g, id) && p in g && Rooted(g, p);
      assert t[id := t[id]] == t;
      SaveKeepsForestIff(t, id, t[id]);
    }
  }

  /** An accepted request puts the row where it says, and touches no other row. */
  lemma RequestMovesTo(t: Table, r: Request)
    requires Accepted(t, r)
    ensures
      var later := Perform(t, r);
      && r.id in later && later[r.id].name == r.name
      && (r.change.parent.Some? ==> later[r.id].parent == r.change.parent.value)
      && (r.change.company.Some? ==> later[r.id].company == r.change.company.value)
      && (r.change.parent.None? ==> later[r.id].parent == if r.isNew then None else t[r.id].parent)
      && (r.change.company.None? ==> !r.isNew && later[r.id].company == t[r.id].company)
      && later.Keys == t.Keys + {r.id} && forall n :: n in t && n != r.id ==> later[n] == t[n]
  {
  }

  // ---------------------------------------------------------------- subtrees

  /** The rows of the table that the frontier query finds. */
  function Query(t: Table, frontier: set<nat>): set<nat> {
    set n | n in t && t[n].parent.Some? && t[n].parent.value in frontier
  }

  /** _department_descendants: exactly what lies at most 32 child edges below the roots. */
  method DepartmentDescendants(t: Table, roots: set<nat>) returns (result: set<nat>)
    ensures result == Below(ParentColumn(t), roots, DEPTH_LIMIT)
    ensures forall n :: n in result <==> exists a :: a in roots && ReachesWithin(ParentColumn(t), n, a, 32)
  {
    ghost var g := ParentColumn(t);
    result := roots;
    var frontier := roots;
    for i := 0 to DEPTH_LIMIT
      invariant result == Below(g, roots, i)
      invariant frontier <= result
      invariant ChildrenOf(g, result) <= result + ChildrenOf(g, frontier)
    {
      if frontier == {} {
        BelowSettles(g, roots, i, DEPTH_LIMIT);
        break;
      }
      var children := Query(t, frontier);
      assert children == ChildrenOf(g, frontier);
      var newIds := children - result;
      assert result + newIds == result + ChildrenOf(g, result);
      result := result + newIds;
      frontier := newIds;
    }
    forall n
      ensures n in Below(g, roots, DEPTH_LIMIT) <==> exists a :: a in roots && ReachesWithin(g, n, a, DEPTH_LIMIT)
    {
      BelowIsDescendants(g, roots, DEPTH_LIMIT, n);
    }
  }

  /** No chain of parents is longer than the search goes. */
  ghost predicate Shallow(g: Parents) {
    forall n :: n in g ==> Ancestor(g, n, DEPTH_LIMIT + 1).None?
  }

  /** With no chain longer than 32 edges the expansion is the whole closure, and closed under children. */
  lemma ShallowExpansionIsClosure(g: Parents, roots: set<nat>)
    requires Shallow(g)
    ensures forall n :: n in g ==>
              (n in Below(g, roots, DEPTH_LIMIT) <==> exists a :: a in roots && IsAncestor(g, a, n))
    ensures ChildrenOf(g, Below(g, roots, DEPTH_LIMIT)) <= Below(g, roots, DEPTH_LIMIT)
  {
    forall n | n in g
      ensures n in Below(g, roots, DEPTH_LIMIT) <==> exists a :: a in roots && IsAncestor(g, a, n)
    {
      BelowIsDescendants(g, roots, DEPTH_LIMIT, n);
      if a: nat :| a in roots && IsAncestor(g, a, n) {
        var k: nat :| Ancestor(g, n, k) == Some(a);
        if k > DEPTH_LIMIT {
          EndedStaysEnded(g, n, DEPTH_LIMIT + 1, k);
        }
        assert ReachesWithin(g, n, a, DEPTH_LIMIT);
      }
    }
    forall n | n in ChildrenOf(g, Below(g, roots, DEPTH_LIMIT))
      ensures n in Below(g, roots, DEPTH_LIMIT)
    {
      BelowIsDescendants(g, roots, DEPTH_LIMIT, g[n].value);
      var a :| a in roots && ReachesWithin(g, g[n].value, a, DEPTH_LIMIT);
      var j :| 0 <= j <= DEPTH_LIMIT && Ancestor(g, g[n].value, j) == Some(a);
      OneUp(g, n, j);
      assert IsAncestor(g, a, n);
    }
  }
}
