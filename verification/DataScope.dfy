/**
 Data scopes: which rows a user sees.  resolve_data_scope merges the roles of a
 user into one scope; apply_data_scope turns the scope into a query filter for
 a model that has some of the organisation columns.
*/
module DataScope {
  import opened Common
  import opened Hierarchy
  import Departments

  datatype ScopeType = All | Company | Custom | Factory | Warehouse | Department | Self

  datatype Dimension = OfCompany | OfFactory | OfDepartment | OfWarehouse

  datatype Role = Role(id: nat, scopeType: ScopeType, company: Option<nat>)

  datatype Grant = Grant(role: nat, dimension: Dimension, target: nat)

  datatype User = User(id: nat, isAuthenticated: bool, isSuperuser: bool, company: Option<nat>)

  /** What the roles are merged against: the grants and the department tree. */
  datatype Tables = Tables(grants: set<Grant>, departments: Parents)

  datatype Scope =
    | Restricted
    | Scope(scopeType: ScopeType, user: nat, companies: set<nat>, factories: set<nat>, departments: set<nat>,
      warehouses: set<nat>)

  function Rank(t: ScopeType): nat {
    match t
    case All => 100
    case Company => 80
    case Custom => 70
    case Factory => 60
    case Warehouse => 50
    case Department => 40
    case Self => 10
  }

  // ---------------------------------------------------------------- resolving

  /** max with a key: the first of the widest roles. */
  function Effective(roles: seq<Role>): Role
    requires roles != []
  {
    if |roles| == 1 then roles[0]
    else
      var best := Effective(roles[..|roles| - 1]);
      if Rank(best.scopeType) < Rank(roles[|roles| - 1].scopeType) then roles[|roles| - 1] else best
  }

  function Companies(u: User, roles: seq<Role>): set<nat> {
    (if u.company.Some? then {u.company.value} else {})
    + set r | r in roles && r.company.Some? :: r.company.value
  }

  function Granted(db: Tables, roles: seq<Role>, t: ScopeType, d: Dimension): set<nat> {
    set r, x | r in roles && r.scopeType == t && x in db.grants && x.role == r.id && x.dimension == d :: x.target
  }

  function Subtree(db: Tables, roots: set<nat>): set<nat> {
    Below(db.departments, roots, Departments.DEPTH_LIMIT)
  }

  function Resolve(db: Tables, u: User, roles: seq<Role>): Scope {
    if !u.isAuthenticated then Restricted
    else if u.isSuperuser then Scope(All, u.id, {}, {}, {}, {})
    else if roles == [] then Restricted
    else
      var t := Effective(roles).scopeType;
      var companies := Companies(u, roles);
      var factories := Granted(db, roles, t, OfFactory);
      var departments := Granted(db, roles, t, OfDepartment);
      var warehouses := Granted(db, roles, t, OfWarehouse);
      match t
      case All => Scope(All, u.id, {}, {}, {}, {})
      case Self => Scope(Self, u.id, {}, {}, {}, {})
      case Company => Scope(Company, u.id, companies, {}, {}, {})
      case Custom =>
        Scope(Custom, u.id, companies + Granted(db, roles, t, OfCompany), factories, Subtree(db, departments),
          warehouses)
      case Factory => if factories == {} then Restricted else Scope(Factory, u.id, companies, factories, {}, {})
      case Department =>
        if departments == {} then Restricted else Scope(Department, u.id, companies, {}, Subtree(db, departments), {})
      case Warehouse => if warehouses == {} then Restricted else Scope(Warehouse, u.id, companies, {}, {}, warehouses)
  }

  // ---------------------------------------------------------------- applying

  /** Which columns the queried model has. */
  datatype Fields = Fields(company: bool, factory: bool, department: bool, warehouse: bool, owner: bool)

  /** The values of one row; an empty column matches no list of ids. */
  datatype Row = Row(
      company: Option<nat>, factory: Option<nat>, department: Option<nat>, warehouse: Option<nat>, owner: Option<nat>)

  datatype Test = Test(dimension: Dimension, ids: set<nat>)

  /** `Where` is a conjunction of disjunctions of tests. */
  datatype Filter = AllRows | NoRows | OwnedBy(user: nat) | Where(clauses: seq<seq<Test>>)

  function Column(row: Row, d: Dimension): Option<nat> {
    match d
    case OfCompany => row.company
    case OfFactory => row.factory
    case OfDepartment => row.department
    case OfWarehouse => row.warehouse
  }

  function TestIf(hasField: bool, d: Dimension, ids: set<nat>): seq<Test> {
    if hasField && ids != {} then [Test(d, ids)] else []
  }

  function Clause(tests: seq<Test>): seq<seq<Test>> {
    if tests == [] then [] else [tests]
  }

  function WhereAll(clauses: seq<seq<Test>>): Filter {
    if clauses == [] then NoRows else Where(clauses)
  }

  function Apply(s: Scope, f: Fields): Filter {
    if s.Restricted? then NoRows
    else
      var company := Clause(TestIf(f.company, OfCompany, s.companies));
      match s.scopeType
      case All => AllRows
      case Self => if f.owner then OwnedBy(s.user) else NoRows
      case Company => WhereAll(company)
      case Factory =>
        if !f.factory || s.factories == {} then NoRows
        else WhereAll(company + [[Test(OfFactory, s.factories)]])
      case Department =>
        if !f.department || s.departments == {} then NoRows
        else WhereAll(company + [[Test(OfDepartment, s.departments)]])
      case Warehouse =>
        if !f.warehouse || s.warehouses == {} then NoRows else WhereAll(company + [[Test(OfWarehouse, s.warehouses)]])
      case Custom =>
        WhereAll(company + Clause(TestIf(f.factory, OfFactory, s.factories)
                                  + TestIf(f.department, OfDepartment, s.departments)
                                  + TestIf(f.warehouse, OfWarehouse, s.warehouses)))
  }

  predicate Holds(x: Test, row: Row) {
    Column(row, x.dimension).Some? && Column(row, x.dimension).value in x.ids
  }

  predicate Passes(filter: Filter, row: Row) {
    match filter
    case AllRows => true
    case NoRows => false
    case OwnedBy(user) => row.owner == Some(user)
    case Where(clauses) =>
      forall i :: 0 <= i < |clauses| ==> exists j :: 0 <= j < |clauses[i]| && Holds(clauses[i][j], row)
  }

  predicate Visible(db: Tables, u: User, roles: seq<Role>, f: Fields, row: Row) {
    Passes(Apply(Resolve(db, u, roles), f), row)
  }

  // ---------------------------------------------------------------- what a scope shows

  predicate Among(ids: set<nat>, column: Option<nat>) {
    column.Some? && column.value in ids
  }

  /** The company boundary binds only models with a company column, and only once some company is known. */
  predicate Bounded(s: Scope, f: Fields)
    requires s.Scope?
  {
    f.company && s.companies != {}
  }

  /** A custom scope names an object in some dimension the model has. */
  predicate NamesObjects(s: Scope, f: Fields)
    requires s.Scope?
  {
    (f.factory && s.factories != {}) || (f.department && s.departments != {}) || (f.warehouse && s.warehouses != {})
  }

  predicate OneOfItsObjects(s: Scope, f: Fields, row: Row)
    requires s.Scope?
  {
    || (f.factory && Among(s.factories, row.factory))
    || (f.department && Among(s.departments, row.department))
    || (f.warehouse && Among(s.warehouses, row.warehouse))
  }

  /** The single dimension of a factory, department or warehouse scope: has the model the column, and which ids. */
  function SingleDimension(s: Scope, f: Fields): (bool, set<nat>, Dimension)
    requires s.Scope? && (s.scopeType.Factory? || s.scopeType.Department? || s.scopeType.Warehouse?)
  {
    if s.scopeType.Factory? then (f.factory, s.factories, OfFactory)
    else if s.scopeType.Department? then (f.department, s.departments, OfDepartment)
    else (f.warehouse, s.warehouses, OfWarehouse)
  }

  /** The documented rule, dimension by dimension. */
  predicate Allows(s: Scope, f: Fields, row: Row) {
    s.Scope? && match s.scopeType
      case All => true
      case Self => f.owner && row.owner == Some(s.user)
      case Company => Bounded(s, f) && Among(s.companies, row.company)
      case Custom =>
        && (Bounded(s, f) || NamesObjects(s, f))
        && (Bounded(s, f) ==> Among(s.companies, row.company))
        && (NamesObjects(s, f) ==> OneOfItsObjects(s, f, row))
      case _ =>
        var (hasField, ids, d) := SingleDimension(s, f);
        hasField && Among(ids, Column(row, d)) && (Bounded(s, f) ==> Among(s.companies, row.company))
  }

  lemma ClauseHolds(company: seq<Test>, others: seq<Test>, row: Row)
    ensures Passes(WhereAll(Clause(company) + Clause(others)), row)
       <==> (company != [] || others != [])
            && (company != [] ==> exists j :: 0 <= j < |company| && Holds(company[j], row))
            && (others != [] ==> exists j :: 0 <= j < |others| && Holds(others[j], row))
  {
    var clauses := Clause(company) + Clause(others);
    assert company != [] ==> clauses[0] == company;
    assert others != [] ==> clauses[|clauses| - 1] == others;
  }

  lemma TestsHold(a: seq<Test>, b: seq<Test>, c: seq<Test>, row: Row)
    requires |a| <= 1 && |b| <= 1 && |c| <= 1
    ensures (exists j :: 0 <= j < |a + b + c| && Holds((a + b + c)[j], row))
       <==> (a != [] && Holds(a[0], row)) || (b != [] && Holds(b[0], row)) || (c != [] && Holds(c[0], row))
  {
    var all := a + b + c;
    assert a != [] ==> all[0] == a[0];
    assert b != [] ==> all[|a|] == b[0];
    assert c != [] ==> all[|a| + |b|] == c[0];
  }

  lemma CustomMatchesRule(s: Scope, f: Fields, row: Row)
    requires s.Scope? && s.scopeType.Custom?
    ensures Passes(Apply(s, f), row) <==> Allows(s, f, row)
  {
    var company := TestIf(f.company, OfCompany, s.companies);
    var a := TestIf(f.factory, OfFactory, s.factories);
    var b := TestIf(f.department, OfDepartment, s.departments);
    var c := TestIf(f.warehouse, OfWarehouse, s.warehouses);
    ClauseHolds(company, a + b + c, row);
    TestsHold(company, [], [], row);
    assert company + [] + [] == company;
    TestsHold(a, b, c, row);
  }

  lemma SingleMatchesRule(s: Scope, f: Fields, row: Row)
    requires s.Scope? && (s.scopeType.Factory? || s.scopeType.Department? || s.scopeType.Warehouse?)
    ensures Passes(Apply(s, f), row) <==> Allows(s, f, row)
  {
    var company := TestIf(f.company, OfCompany, s.companies);
    var (hasField, ids, d) := SingleDimension(s, f);
    ClauseHolds(company, [Test(d, ids)], row);
    TestsHold(company, [], [], row);
    assert company + [] + [] == company;
    TestsHold([Test(d, ids)], [], [], row);
    assert [Test(d, ids)] + [] + [] == [Test(d, ids)];
  }

  /** The filter that is built passes exactly the rows the rule allows. */
  lemma FilterMatchesRule(s: Scope, f: Fields, row: Row)
    ensures Passes(Apply(s, f), row) <==> Allows(s, f, row)
  {
    if s.Scope? {
      var company := TestIf(f.company, OfCompany, s.companies);
      match s.scopeType
      case All =>
      case Self =>
      case Company =>
        ClauseHolds(company, [], row);
        assert Clause(company) + Clause([]) == Clause(company);
        TestsHold(company, [], [], row);
        assert company + [] + [] == company;
      case Custom =>
        CustomMatchesRule(s, f, row);
      case _ =>
        SingleMatchesRule(s, f, row);
    }
  }

  /** Fail closed: a single-dimension scope without a grant, or on a model without the column, shows nothing. */
  lemma SingleDimensionFailsClosed(db: Tables, u: User, roles: seq<Role>, f: Fields, row: Row, d: Dimension)
    requires u.isAuthenticated && !u.isSuperuser && roles != []
    requires
      match Effective(roles).scopeType
      case Factory => d == OfFactory && (!f.factory || Granted(db, roles, Factory, d) == {})
      case Department => d == OfDepartment && (!f.department || Granted(db, roles, Department, d) == {})
      case Warehouse => d == OfWarehouse && (!f.warehouse || Granted(db, roles, Warehouse, d) == {})
      case _ => false
    ensures !Visible(db, u, roles, f, row)
  {
    FilterMatchesRule(Resolve(db, u, roles), f, row);
  }

  // ---------------------------------------------------------------- visibility in terms of roles and grants

  /** The widest scope type among the roles. */
  ghost predicate IsTier(roles: seq<Role>, t: ScopeType) {
    (exists r :: r in roles && r.scopeType == t) && forall r :: r in roles ==> Rank(r.scopeType) <= Rank(t)
  }

  ghost predicate IsGranted(db: Tables, roles: seq<Role>, t: ScopeType, d: Dimension, x: nat) {
    exists r, g ::
      r in roles && r.scopeType == t && g in db.grants && g.role == r.id && g.dimension == d && g.target == x
  }

  /** Granted itself, or a department at most 32 levels below a granted one. */
  ghost predicate IsCovered(db: Tables, roles: seq<Role>, t: ScopeType, d: Dimension, x: nat) {
    if d.OfDepartment? then
      exists a :: IsGranted(db, roles, t, d, a) && ReachesWithin(db.departments, x, a, 32)
    else IsGranted(db, roles, t, d, x)
  }

  ghost predicate IsKnownCompany(db: Tables, u: User, roles: seq<Role>, t: ScopeType, c: nat) {
    || u.company == Some(c)
    || (exists r :: r in roles && r.company == Some(c))
    || (t.Custom? && IsGranted(db, roles, t, OfCompany, c))
  }

  predicate HasField(f: Fields, d: Dimension) {
    match d
    case OfCompany => f.company
    case OfFactory => f.factory
    case OfDepartment => f.department
    case OfWarehouse => f.warehouse
  }

  /** The row lies in some dimension `d` the model has, on an object the tier's roles cover. */
  ghost predicate IsOn(db: Tables, roles: seq<Role>, t: ScopeType, f: Fields, row: Row, d: Dimension) {
    HasField(f, d) && Column(row, d).Some? && IsCovered(db, roles, t, d, Column(row, d).value)
  }

  /** What a tier shows.  The company boundary comes first and then narrows every other dimension. */
  ghost predicate TierShows(db: Tables, u: User, roles: seq<Role>, t: ScopeType, f: Fields, row: Row) {
    var bounded := f.company && exists c :: IsKnownCompany(db, u, roles, t, c);
    var inside := bounded ==> row.company.Some? && IsKnownCompany(db, u, roles, t, row.company.value);
    match t
    case All => true
    case Self => f.owner && row.owner == Some(u.id)
    case Company => bounded && inside
    case Factory => inside && IsOn(db, roles, t, f, row, OfFactory)
    case Department => inside && IsOn(db, roles, t, f, row, OfDepartment)
    case Warehouse => inside && IsOn(db, roles, t, f, row, OfWarehouse)
    case Custom =>
      var names := exists d: Dimension, x :: !d.OfCompany? && HasField(f, d) && IsGranted(db, roles, t, d, x);
      (bounded || names) && inside && (names ==> exists d: Dimension :: !d.OfCompany? && IsOn(db, roles, t, f, row, d))
  }

  lemma GrantedIff(db: Tables, roles: seq<Role>, t: ScopeType, d: Dimension)
    ensures forall x :: x in Granted(db, roles, t, d) <==> IsGranted(db, roles, t, d, x)
    ensures Granted(db, roles, t, d) != {} <==> exists x :: IsGranted(db, roles, t, d, x)
  {
    if Granted(db, roles, t, d) != {} {
      var x :| x in Granted(db, roles, t, d);
      assert IsGranted(db, roles, t, d, x);
    }
  }

  lemma SubtreeIff(db: Tables, roots: set<nat>, x: nat)
    ensures x in Subtree(db, roots)
       <==> exists a :: a in roots && ReachesWithin(db.departments, x, a, Departments.DEPTH_LIMIT)
    ensures Subtree(db, roots) == {} <==> roots == {}
  {
    BelowIsDescendants(db.departments, roots, Departments.DEPTH_LIMIT, x);
    BelowGrows(db.departments, roots, roots, Departments.DEPTH_LIMIT);
    if roots == {} {
      BelowNothing(db.departments, Departments.DEPTH_LIMIT);
    }
  }

  lemma {:induction false} BelowNothing(g: Parents, k: nat)
    ensures Below(g, {}, k) == {}
    decreases k
  {
    if k > 0 {
      BelowNothing(g, k - 1);
    }
  }

  /** The ids a scope carries for a dimension other than the company. */
  function Ids(db: Tables, roles: seq<Role>, t: ScopeType, d: Dimension): set<nat> {
    if d.OfDepartment? then Subtree(db, Granted(db, roles, t, d)) else Granted(db, roles, t, d)
  }

  lemma IdsAreCovered(db: Tables, roles: seq<Role>, t: ScopeType, d: Dimension, x: nat)
    ensures x in Ids(db, roles, t, d) <==> IsCovered(db, roles, t, d, x)
    ensures Ids(db, roles, t, d) == {} <==> Granted(db, roles, t, d) == {}
    ensures Granted(db, roles, t, d) != {} <==> exists y :: IsGranted(db, roles, t, d, y)
  {
    GrantedIff(db, roles, t, d);
    if d.OfDepartment? {
      SubtreeIff(db, Granted(db, roles, t, d), x);
    }
  }

  function AllCompanies(db: Tables, u: User, roles: seq<Role>, t: ScopeType): set<nat> {
    Companies(u, roles) + if t.Custom? then Granted(db, roles, t, OfCompany) else {}
  }

  lemma CompaniesAreKnown(db: Tables, u: User, roles: seq<Role>, t: ScopeType)
    ensures forall c :: c in AllCompanies(db, u, roles, t) <==> IsKnownCompany(db, u, roles, t, c)
    ensures AllCompanies(db, u, roles, t) != {} <==> exists c :: IsKnownCompany(db, u, roles, t, c)
  {
    GrantedIff(db, roles, t, OfCompany);
    if AllCompanies(db, u, roles, t) != {} {
      var c :| c in AllCompanies(db, u, roles, t);
    }
  }

  /** The part of a row's test that one dimension contributes. */
  lemma DimensionIff(db: Tables, roles: seq<Role>, t: ScopeType, f: Fields, row: Row, d: Dimension)
    ensures HasField(f, d) && Among(Ids(db, roles, t, d), Column(row, d)) <==> IsOn(db, roles, t, f, row, d)
    ensures IsOn(db, roles, t, f, row, d) ==> Granted(db, roles, t, d) != {}
    ensures Ids(db, roles, t, d) != {} <==> exists x :: IsGranted(db, roles, t, d, x)
    ensures Ids(db, roles, t, d) == {} <==> Granted(db, roles, t, d) == {}
  {
    IdsAreCovered(db, roles, t, d, if Column(row, d).Some? then Column(row, d).value else 0);
  }

  lemma TierOfEffective(roles: seq<Role>, t: ScopeType)
    requires roles != []
    ensures IsTier(roles, t) <==> t == Effective(roles).scopeType
  {
    EffectiveIsWidest(roles);
  }

  /** The resolved scope, with one set of ids for each dimension. */
  lemma ResolvedScope(db: Tables, u: User, roles: seq<Role>)
    requires u.isAuthenticated && !u.isSuperuser && roles != []
    ensures
      var s, t := Resolve(db, u, roles), Effective(roles).scopeType;
      && (s.Scope? ==> s.scopeType == t && s.user == u.id)
      && (s.Scope? && !t.All? && !t.Self? ==> s.companies == AllCompanies(db, u, roles, t))
      && (s.Scope? && (t.Custom? || t.Factory?) ==> s.factories == Ids(db, roles, t, OfFactory))
      && (s.Scope? && (t.Custom? || t.Department?) ==> s.departments == Ids(db, roles, t, OfDepartment))
      && (s.Scope? && (t.Custom? || t.Warehouse?) ==> s.warehouses == Ids(db, roles, t, OfWarehouse))
      && (s.Restricted? ==> t.Factory? || t.Department? || t.Warehouse?)
      && (forall d :: IsSingle(t, d) ==> (s.Restricted? <==> Granted(db, roles, t, d) == {}))
  {
    var t := Effective(roles).scopeType;
    assert !t.Custom? ==> AllCompanies(db, u, roles, t) == Companies(u, roles);
  }

  predicate IsSingle(t: ScopeType, d: Dimension) {
    (t.Factory? && d.OfFactory?) || (t.Department? && d.OfDepartment?) || (t.Warehouse? && d.OfWarehouse?)
  }

  lemma SingleTierShows(
      db: Tables, u: User, roles: seq<Role>, t: ScopeType, s: Scope, f: Fields, row: Row, d: Dimension)
    requires IsSingle(t, d) && s.Scope? && s.scopeType == t
    requires forall c :: c in s.companies <==> IsKnownCompany(db, u, roles, t, c)
    requires s.companies != {} <==> exists c :: IsKnownCompany(db, u, roles, t, c)
    requires HasField(f, d) && Among(SingleDimension(s, f).1, Column(row, d)) <==> IsOn(db, roles, t, f, row, d)
    ensures Allows(s, f, row) <==> TierShows(db, u, roles, t, f, row)
  {
  }

  lemma CustomTierShows(db: Tables, u: User, roles: seq<Role>, s: Scope, f: Fields, row: Row)
    requires s.Scope? && s.scopeType == Custom
    requires forall c :: c in s.companies <==> IsKnownCompany(db, u, roles, Custom, c)
    requires s.companies != {} <==> exists c :: IsKnownCompany(db, u, roles, Custom, c)
    requires f.factory && Among(s.factories, row.factory) <==> IsOn(db, roles, Custom, f, row, OfFactory)
    requires f.department && Among(s.departments, row.department) <==> IsOn(db, roles, Custom, f, row, OfDepartment)
    requires f.warehouse && Among(s.warehouses, row.warehouse) <==> IsOn(db, roles, Custom, f, row, OfWarehouse)
    requires s.factories != {} <==> exists x :: IsGranted(db, roles, Custom, OfFactory, x)
    requires s.departments != {} <==> exists x :: IsGranted(db, roles, Custom, OfDepartment, x)
    requires s.warehouses != {} <==> exists x :: IsGranted(db, roles, Custom, OfWarehouse, x)
    ensures Allows(s, f, row) <==> TierShows(db, u, roles, Custom, f, row)
  {
    var names := exists d: Dimension, x :: !d.OfCompany? && HasField(f, d) && IsGranted(db, roles, Custom, d, x);
    assert NamesObjects(s, f) <==> names;
    assert OneOfItsObjects(s, f, row) <==> exists d: Dimension :: !d.OfCompany? && IsOn(db, roles, Custom, f, row, d);
  }

  lemma SingleCase(db: Tables, u: User, roles: seq<Role>, f: Fields, row: Row, d: Dimension)
    requires u.isAuthenticated && !u.isSuperuser && roles != [] && IsSingle(Effective(roles).scopeType, d)
    ensures Allows(Resolve(db, u, roles), f, row) <==> TierShows(db, u, roles, Effective(roles).scopeType, f, row)
  {
    var s, t := Resolve(db, u, roles), Effective(roles).scopeType;
    ResolvedScope(db, u, roles);
    CompaniesAreKnown(db, u, roles, t);
    DimensionIff(db, roles, t, f, row, d);
    if s.Scope? {
      SingleTierShows(db, u, roles, t, s, f, row, d);
    }
  }

  lemma AllowsIffTierShows(db: Tables, u: User, roles: seq<Role>, f: Fields, row: Row)
    requires u.isAuthenticated && !u.isSuperuser && roles != []
    ensures Allows(Resolve(db, u, roles), f, row) <==> TierShows(db, u, roles, Effective(roles).scopeType, f, row)
  {
    var s, t := Resolve(db, u, roles), Effective(roles).scopeType;
    match t
    case Factory => SingleCase(db, u, roles, f, row, OfFactory);
    case Department => SingleCase(db, u, roles, f, row, OfDepartment);
    case Warehouse => SingleCase(db, u, roles, f, row, OfWarehouse);
    case Custom =>
      ResolvedScope(db, u, roles);
      CompaniesAreKnown(db, u, roles, t);
      DimensionIff(db, roles, t, f, row, OfFactory);
      DimensionIff(db, roles, t, f, row, OfDepartment);
      DimensionIff(db, roles, t, f, row, OfWarehouse);
      CustomTierShows(db, u, roles, s, f, row);
    case _ =>
      ResolvedScope(db, u, roles);
      CompaniesAreKnown(db, u, roles, t);
  }

  /**
   Who sees what, without sets or queries: a superuser everything; any other
   signed-in user what the widest tier of the roles shows.
  */
  lemma VisibleIff(db: Tables, u: User, roles: seq<Role>, f: Fields, row: Row)
    ensures Visible(db, u, roles, f, row)
       <==> u.isAuthenticated && (u.isSuperuser || exists t :: IsTier(roles, t) && TierShows(db, u, roles, t, f, row))
  {
    FilterMatchesRule(Resolve(db, u, roles), f, row);
    if u.isAuthenticated && !u.isSuperuser && roles != [] {
      AllowsIffTierShows(db, u, roles, f, row);
      forall t
        ensures IsTier(roles, t) <==> t == Effective(roles).scopeType
      {
        TierOfEffective(roles, t);
      }
    }
  }

  /** Some role has the type. */
  ghost predicate Has(roles: seq<Role>, t: ScopeType) {
    exists r :: r in roles && r.scopeType == t
  }

  /** From wide to narrow: all, company, custom, factory, warehouse, department, self; the first some role has. */
  lemma TierIsFirstOf(roles: seq<Role>, t: ScopeType)
    ensures IsTier(roles, t)
       <==> if Has(roles, All) then t == All
            else if Has(roles, Company) then t == Company
            else if Has(roles, Custom) then t == Custom
            else if Has(roles, Factory) then t == Factory
            else if Has(roles, Warehouse) then t == Warehouse
            else if Has(roles, Department) then t == Department
            else Has(roles, Self) && t == Self
  {
    if IsTier(roles, t) {
      forall wider: ScopeType | Has(roles, wider)
        ensures Rank(wider) <= Rank(t)
      {
      }
    } else if Has(roles, t) {
      var r :| r in roles && Rank(r.scopeType) > Rank(t);
      assert Has(roles, r.scopeType);
    }
  }

  // ---------------------------------------------------------------- only the set of roles matters

  lemma {:induction false} EffectiveIsWidest(roles: seq<Role>)
    requires roles != []
    ensures Effective(roles) in roles
    ensures forall r :: r in roles ==> Rank(r.scopeType) <= Rank(Effective(roles).scopeType)
  {
    if |roles| > 1 {
      EffectiveIsWidest(roles[..|roles| - 1]);
      assert roles == roles[..|roles| - 1] + [roles[|roles| - 1]];
    }
  }

  /** Neither the order of the roles nor a repeated role changes the scope, although max keeps the first of equals. */
  lemma OnlyTheSetOfRolesMatters(db: Tables, u: User, a: seq<Role>, b: seq<Role>)
    requires forall r :: r in a <==> r in b
    ensures Resolve(db, u, a) == Resolve(db, u, b)
  {
    assert a == [] <==> b == [] by {
      assert a != [] ==> a[0] in b;
      assert b != [] ==> b[0] in a;
    }
    if a != [] {
      EffectiveIsWidest(a);
      EffectiveIsWidest(b);
      assert Effective(a).scopeType == Effective(b).scopeType;
      var t := Effective(a).scopeType;
      assert Companies(u, a) == Companies(u, b);
      forall d
        ensures Granted(db, a, t, d) == Granted(db, b, t, d)
      {
      }
    }
  }

  // ---------------------------------------------------------------- departments below

  lemma {:induction false} BelowGrows(g: Parents, a: set<nat>, b: set<nat>, k: nat)
    requires a <= b
    ensures Below(g, a, k) <= Below(g, b, k)
    ensures a <= Below(g, a, k)
    decreases k
  {
    if k > 0 {
      BelowGrows(g, a, b, k - 1);
    }
  }

  lemma ClosedScopeShowsBelow(g: Parents, s: Scope, f: Fields, row: Row, child: nat)
    requires s.Scope? && s.scopeType.Department? && ChildrenOf(g, s.departments) <= s.departments
    requires child in g && g[child].Some? && g[child] == row.department
    requires Passes(Apply(s, f), row)
    ensures Passes(Apply(s, f), row.(department := Some(child)))
  {
    FilterMatchesRule(s, f, row);
    assert child in ChildrenOf(g, s.departments);
    FilterMatchesRule(s, f, row.(department := Some(child)));
  }

  lemma SubtreeIsClosed(db: Tables, roots: set<nat>)
    requires Departments.Shallow(db.departments)
    ensures ChildrenOf(db.departments, Subtree(db, roots)) <= Subtree(db, roots)
  {
    Departments.ShallowExpansionIsClosure(db.departments, roots);
  }

  /** Whoever sees a department sees the departments below it, if no chain is longer than the search goes. */
  lemma DepartmentScopeIsClosed(db: Tables, u: User, roles: seq<Role>, f: Fields, row: Row, child: nat)
    requires u.isAuthenticated && !u.isSuperuser && roles != [] && Effective(roles).scopeType.Department?
    requires Departments.Shallow(db.departments)
    requires child in db.departments && db.departments[child].Some? && db.departments[child] == row.department
    requires Visible(db, u, roles, f, row)
    ensures Visible(db, u, roles, f, row.(department := Some(child)))
  {
    SubtreeIsClosed(db, Granted(db, roles, Department, OfDepartment));
    ClosedScopeShowsBelow(db.departments, Resolve(db, u, roles), f, row, child);
  }
}
