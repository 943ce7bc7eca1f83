/**
 What one more role does to what a user sees.  A role can widen the scope, but
 it can also bring a restriction that was not there before, or move the user to
 a tier that asks for other columns.
*/
module RoleChanges {
  import opened Common
  import opened DataScope
  import Departments

  // ---------------------------------------------------------------- comparing two scopes

  predicate IsSelective(t: ScopeType) {
    !t.All? && !t.Self?
  }

  /** The ids the object clause of the filter names in a dimension. */
  function ObjectIds(s: Scope, f: Fields, d: Dimension): set<nat>
    requires s.Scope?
  {
    if !HasField(f, d) then {}
    else match d
      case OfCompany => {}
      case OfFactory => if s.scopeType.Factory? || s.scopeType.Custom? then s.factories else {}
      case OfDepartment => if s.scopeType.Department? || s.scopeType.Custom? then s.departments else {}
      case OfWarehouse => if s.scopeType.Warehouse? || s.scopeType.Custom? then s.warehouses else {}
  }

  predicate NamesSome(s: Scope, f: Fields)
    requires s.Scope?
  {
    ObjectIds(s, f, OfFactory) != {} || ObjectIds(s, f, OfDepartment) != {} || ObjectIds(s, f, OfWarehouse) != {}
  }

  predicate OnSome(s: Scope, f: Fields, row: Row)
    requires s.Scope?
  {
    || Among(ObjectIds(s, f, OfFactory), row.factory)
    || Among(ObjectIds(s, f, OfDepartment), row.department)
    || Among(ObjectIds(s, f, OfWarehouse), row.warehouse)
  }

  /** Some row could be visible. */
  predicate CanShow(s: Scope, f: Fields) {
    s.Scope? && match s.scopeType
      case All => true
      case Self => f.owner
      case Company => Bounded(s, f)
      case Custom => Bounded(s, f) || NamesSome(s, f)
      case _ => NamesSome(s, f)
  }

  /** The selective scopes share one rule: a company clause if bounded, an object clause if any object is named. */
  lemma AllowsByClauses(s: Scope, f: Fields, row: Row)
    requires s.Scope? && IsSelective(s.scopeType)
    ensures Allows(s, f, row)
       <==> && CanShow(s, f)
            && (Bounded(s, f) ==> Among(s.companies, row.company))
            && (NamesSome(s, f) ==> OnSome(s, f, row))
  {
  }

  ghost function AnyOf(ids: set<nat>): Option<nat> {
    if ids == {} then None else var x :| x in ids; Some(x)
  }

  /** The row that lies on nothing but the given object. */
  function OnlyOn(company: Option<nat>, d: Dimension, x: Option<nat>, owner: Option<nat>): Row {
    Row(company,
        if d.OfFactory? then x else None,
        if d.OfDepartment? then x else None,
        if d.OfWarehouse? then x else None,
        owner)
  }

  /** A row that carries only what the scope asks for, on the object given if one is needed. */
  ghost function BareRow(s: Scope, f: Fields, d: Dimension, x: Option<nat>): Row
    requires s.Scope?
  {
    OnlyOn(if IsSelective(s.scopeType) && Bounded(s, f) then AnyOf(s.companies) else None,
           d, x, if s.scopeType.Self? then Some(s.user) else None)
  }

  ghost function FirstObject(s: Scope, f: Fields): (Dimension, Option<nat>)
    requires s.Scope?
  {
    var d := if ObjectIds(s, f, OfFactory) != {} then OfFactory
             else if ObjectIds(s, f, OfDepartment) != {} then OfDepartment else OfWarehouse;
    (d, AnyOf(ObjectIds(s, f, d)))
  }

  lemma BareRowIsAllowed(s: Scope, f: Fields, d: Dimension, x: Option<nat>)
    requires CanShow(s, f)
    requires (x.Some? && x.value in ObjectIds(s, f, d)) || !NamesSome(s, f)
    ensures Allows(s, f, BareRow(s, f, d, x))
  {
    if IsSelective(s.scopeType) {
      AllowsByClauses(s, f, BareRow(s, f, d, x));
    }
  }

  lemma CanShowIff(s: Scope, f: Fields)
    ensures CanShow(s, f) <==> exists row :: Passes(Apply(s, f), row)
  {
    if CanShow(s, f) {
      var (d, x) := FirstObject(s, f);
      BareRowIsAllowed(s, f, d, x);
      FilterMatchesRule(s, f, BareRow(s, f, d, x));
    }
    if row :| Passes(Apply(s, f), row) {
      FilterMatchesRule(s, f, row);
    }
  }

  ghost predicate NeverHides(s: Scope, s': Scope, f: Fields) {
    forall row :: Passes(Apply(s, f), row) ==> Passes(Apply(s', f), row)
  }

  /** Each clause of the new filter is implied by one of the old filter. */
  predicate Contains(s: Scope, s': Scope, f: Fields)
    requires s.Scope?
  {
    CanShow(s', f) && match s'.scopeType
      case All => true
      case Self => s.scopeType.Self?
      case _ =>
        && IsSelective(s.scopeType)
        && (Bounded(s', f) ==> Bounded(s, f) && s.companies <= s'.companies)
        && (NamesSome(s', f) ==>
              && NamesSome(s, f)
              && ObjectIds(s, f, OfFactory) <= ObjectIds(s', f, OfFactory)
              && ObjectIds(s, f, OfDepartment) <= ObjectIds(s', f, OfDepartment)
              && ObjectIds(s, f, OfWarehouse) <= ObjectIds(s', f, OfWarehouse))
  }

  lemma ContainedRowIsAllowed(s: Scope, s': Scope, f: Fields, row: Row)
    requires s.Scope? && (s'.Scope? ==> s.user == s'.user) && Contains(s, s', f) && Allows(s, f, row)
    ensures Allows(s', f, row)
  {
    if IsSelective(s'.scopeType) {
      AllowsByClauses(s, f, row);
      AllowsByClauses(s', f, row);
    }
  }

  /** Where a clause of the new filter is not implied there is a row that the old scope shows and the new one hides. */
  lemma HiddenRow(s: Scope, s': Scope, f: Fields) returns (row: Row)
    requires CanShow(s, f) && (s'.Scope? ==> s.user == s'.user) && !Contains(s, s', f)
    ensures Allows(s, f, row) && !Allows(s', f, row)
  {
    var (d, x) := FirstObject(s, f);
    row := BareRow(s, f, d, x);
    if CanShow(s', f) && IsSelective(s'.scopeType) && IsSelective(s.scopeType) {
      row := HiddenSelectiveRow(s, s', f);
    } else {
      BareRowIsAllowed(s, f, d, x);
      if s'.Scope? && IsSelective(s'.scopeType) {
        AllowsByClauses(s', f, row);
      }
    }
  }

  lemma HiddenSelectiveRow(s: Scope, s': Scope, f: Fields) returns (row: Row)
    requires CanShow(s, f) && CanShow(s', f) && !Contains(s, s', f)
    requires IsSelective(s.scopeType) && IsSelective(s'.scopeType)
    ensures Allows(s, f, row) && !Allows(s', f, row)
  {
    if Bounded(s', f) && !(Bounded(s, f) && s.companies <= s'.companies) {
      row := OutsideCompanies(s, s', f);
    } else {
      row := OutsideObjects(s, s', f);
    }
    AllowsByClauses(s, f, row);
    AllowsByClauses(s', f, row);
  }

  lemma OutsideCompanies(s: Scope, s': Scope, f: Fields) returns (row: Row)
    requires CanShow(s, f) && s'.Scope? && IsSelective(s.scopeType)
    requires Bounded(s', f) && !(Bounded(s, f) && s.companies <= s'.companies)
    ensures Allows(s, f, row) && !Among(s'.companies, row.company)
  {
    var (d, x) := FirstObject(s, f);
    row := BareRow(s, f, d, x);
    BareRowIsAllowed(s, f, d, x);
    if Bounded(s, f) {
      AllowsByClauses(s, f, row);
      var c :| c in s.companies && c !in s'.companies;
      row := row.(company := Some(c));
      AllowsByClauses(s, f, row);
    }
  }

  lemma OutsideObjects(s: Scope, s': Scope, f: Fields) returns (row: Row)
    requires CanShow(s, f) && s'.Scope? && IsSelective(s.scopeType) && NamesSome(s', f)
    requires !(&& NamesSome(s, f)
               && ObjectIds(s, f, OfFactory) <= ObjectIds(s', f, OfFactory)
               && ObjectIds(s, f, OfDepartment) <= ObjectIds(s', f, OfDepartment)
               && ObjectIds(s, f, OfWarehouse) <= ObjectIds(s', f, OfWarehouse))
    ensures Allows(s, f, row) && !OnSome(s', f, row)
  {
    var d, x := OfFactory, None;
    if NamesSome(s, f) {
      d := if !(ObjectIds(s, f, OfFactory) <= ObjectIds(s', f, OfFactory)) then OfFactory
           else if !(ObjectIds(s, f, OfDepartment) <= ObjectIds(s', f, OfDepartment)) then OfDepartment
           else OfWarehouse;
      var y :| y in ObjectIds(s, f, d) && y !in ObjectIds(s', f, d);
      x := Some(y);
    }
    row := BareRow(s, f, d, x);
    BareRowIsAllowed(s, f, d, x);
  }

  /**
   For any two scopes of one user: nothing visible is hidden exactly when the
   new filter is implied by the old one.
  */
  lemma NeverHidesIff(s: Scope, s': Scope, f: Fields)
    requires s.Scope? && s'.Scope? ==> s.user == s'.user
    ensures NeverHides(s, s', f) <==> !CanShow(s, f) || Contains(s, s', f)
  {
    CanShowIff(s, f);
    if CanShow(s, f) {
      if Contains(s, s', f) {
        forall row | Passes(Apply(s, f), row)
          ensures Passes(Apply(s', f), row)
        {
          FilterMatchesRule(s, f, row);
          ContainedRowIsAllowed(s, s', f, row);
          FilterMatchesRule(s', f, row);
        }
      } else {
        var row := HiddenRow(s, s', f);
        FilterMatchesRule(s, f, row);
        FilterMatchesRule(s', f, row);
      }
    }
  }

  // ---------------------------------------------------------------- the scope with one more role

  lemma GrantedSplit(db: Tables, a: seq<Role>, b: seq<Role>, t: ScopeType, d: Dimension)
    ensures Granted(db, a + b, t, d) == Granted(db, a, t, d) + Granted(db, b, t, d)
  {
    assert forall r :: r in a + b <==> r in a || r in b;
  }

  lemma NarrowerGrantsNothing(db: Tables, roles: seq<Role>, t: ScopeType, d: Dimension)
    requires forall r :: r in roles ==> r.scopeType != t
    ensures Granted(db, roles, t, d) == {}
  {
  }

  lemma EffectiveWithOneMore(roles: seq<Role>, r: Role)
    requires roles != []
    ensures Effective(roles + [r])
         == if Rank(Effective(roles).scopeType) < Rank(r.scopeType) then r else Effective(roles)
  {
    assert (roles + [r])[..|roles|] == roles;
  }

  /** The ids the new role brings to its own tier. */
  function OwnIds(db: Tables, r: Role, d: Dimension): set<nat> {
    Ids(db, [r], r.scopeType, d)
  }

  /** The companies known without grants, once the role is there. */
  function CompaniesWith(u: User, roles: seq<Role>, r: Role): set<nat> {
    Companies(u, roles) + if r.company.Some? then {r.company.value} else {}
  }

  lemma CompaniesSplit(u: User, roles: seq<Role>, r: Role)
    ensures Companies(u, roles + [r]) == CompaniesWith(u, roles, r)
  {
    assert forall x :: x in roles + [r] <==> x in roles || x == r;
  }

  /** The role grants an object in some column the model has. */
  predicate GrantsSome(db: Tables, r: Role, f: Fields) {
    || (f.factory && OwnIds(db, r, OfFactory) != {})
    || (f.department && OwnIds(db, r, OfDepartment) != {})
    || (f.warehouse && OwnIds(db, r, OfWarehouse) != {})
  }

  /** The companies a role of the custom tier grants. */
  function OwnCompanies(db: Tables, r: Role): set<nat> {
    if r.scopeType.Custom? then Granted(db, [r], Custom, OfCompany) else {}
  }

  // A role that is no wider than the present tier.

  /** The first company of a model with a company column. */
  predicate BringsFirstCompany(db: Tables, s: Scope, r: Role, f: Fields)
    requires s.Scope?
  {
    f.company && s.companies == {} && (r.company.Some? || (s.scopeType.Custom? && OwnCompanies(db, r) != {}))
  }

  /** The first object of a custom scope. */
  predicate BringsFirstObject(db: Tables, s: Scope, r: Role, f: Fields)
    requires s.Scope?
  {
    s.scopeType.Custom? && r.scopeType.Custom? && !NamesSome(s, f) && GrantsSome(db, r, f)
  }

  // A role that is wider: only its own grants count from now on.

  /** If any company will be known, one was, and none of those the user was confined to is lost. */
  predicate KeepsCompanies(companies: set<nat>, s: Scope, f: Fields)
    requires s.Scope?
  {
    f.company && companies != {} ==> s.companies != {} && s.companies <= companies
  }

  /** The objects the user was confined to are among the role's, in every column the model has. */
  predicate KeepsObjects(db: Tables, s: Scope, r: Role, f: Fields)
    requires s.Scope?
  {
    && NamesSome(s, f)
    && (f.factory ==> ObjectIds(s, f, OfFactory) <= OwnIds(db, r, OfFactory))
    && (f.department ==> ObjectIds(s, f, OfDepartment) <= OwnIds(db, r, OfDepartment))
    && (f.warehouse ==> ObjectIds(s, f, OfWarehouse) <= OwnIds(db, r, OfWarehouse))
  }

  predicate WiderKeepsRows(db: Tables, u: User, roles: seq<Role>, r: Role, s: Scope, f: Fields)
    requires s.Scope?
  {
    var companies := CompaniesWith(u, roles, r) + OwnCompanies(db, r);
    match r.scopeType
    case All => true
    case Company => IsSelective(s.scopeType) && f.company && companies != {} && KeepsCompanies(companies, s, f)
    case Custom =>
      && IsSelective(s.scopeType)
      && (GrantsSome(db, r, f) || (f.company && companies != {}))
      && KeepsCompanies(companies, s, f)
      && (GrantsSome(db, r, f) ==> KeepsObjects(db, s, r, f))
    case _ => false
  }

  /** What an administrator can check before giving the role: `s` is the present scope. */
  predicate KeepsRows(db: Tables, u: User, roles: seq<Role>, r: Role, s: Scope, f: Fields)
    requires s.Scope?
  {
    if Rank(s.scopeType) < Rank(r.scopeType) then WiderKeepsRows(db, u, roles, r, s, f)
    else !IsSelective(s.scopeType) || (!BringsFirstCompany(db, s, r, f) && !BringsFirstObject(db, s, r, f))
  }

  ghost predicate SignedIn(u: User, roles: seq<Role>) {
    u.isAuthenticated && !u.isSuperuser && roles != []
  }

  lemma IdsEmptyIff(db: Tables, roles: seq<Role>, t: ScopeType, d: Dimension)
    ensures Ids(db, roles, t, d) == {} <==> Granted(db, roles, t, d) == {}
  {
    IdsAreCovered(db, roles, t, d, 0);
  }

  lemma SubtreeGrows(db: Tables, a: set<nat>, b: set<nat>)
    requires a <= b
    ensures Subtree(db, a) <= Subtree(db, b)
  {
    BelowGrows(db.departments, a, b, Departments.DEPTH_LIMIT);
  }

  lemma IdsGrow(db: Tables, roles: seq<Role>, r: Role, t: ScopeType, d: Dimension)
    ensures Ids(db, roles, t, d) <= Ids(db, roles + [r], t, d)
  {
    GrantedSplit(db, roles, [r], t, d);
    SubtreeGrows(db, Granted(db, roles, t, d), Granted(db, roles + [r], t, d));
  }

  lemma FirstIds(db: Tables, roles: seq<Role>, r: Role, t: ScopeType, d: Dimension)
    ensures Ids(db, roles + [r], t, d) != {}
       <==> Ids(db, roles, t, d) != {} || (r.scopeType == t && OwnIds(db, r, d) != {})
  {
    GrantedSplit(db, roles, [r], t, d);
    IdsEmptyIff(db, roles, t, d);
    IdsEmptyIff(db, roles + [r], t, d);
    IdsEmptyIff(db, [r], t, d);
    if r.scopeType != t {
      NarrowerGrantsNothing(db, [r], t, d);
    }
  }

  lemma KnownCompaniesGrow(db: Tables, u: User, roles: seq<Role>, r: Role, t: ScopeType)
    ensures AllCompanies(db, u, roles + [r], t)
         == AllCompanies(db, u, roles, t) + (if r.company.Some? then {r.company.value} else {})
            + (if t.Custom? then OwnCompanies(db, r) else {})
  {
    CompaniesSplit(u, roles, r);
    GrantedSplit(db, roles, [r], t, OfCompany);
    if t.Custom? && !r.scopeType.Custom? {
      NarrowerGrantsNothing(db, [r], t, OfCompany);
    }
  }

  lemma NarrowerRoleRestrictsNothing(db: Tables, u: User, roles: seq<Role>, r: Role)
    requires SignedIn(u, roles) && Rank(r.scopeType) <= Rank(Effective(roles).scopeType) && Resolve(db, u, roles).Scope?
    ensures Resolve(db, u, roles + [r]).Scope?
  {
    var t := Effective(roles).scopeType;
    EffectiveWithOneMore(roles, r);
    GrantedSplit(db, roles, [r], t, OfFactory);
    GrantedSplit(db, roles, [r], t, OfDepartment);
    GrantedSplit(db, roles, [r], t, OfWarehouse);
  }

  /** A role no wider than the widest keeps the tier and only adds companies and ids. */
  lemma NarrowerRoleGrowsScope(db: Tables, u: User, roles: seq<Role>, r: Role)
    requires SignedIn(u, roles) && Rank(r.scopeType) <= Rank(Effective(roles).scopeType) && Resolve(db, u, roles).Scope?
    ensures
      var s, s' := Resolve(db, u, roles), Resolve(db, u, roles + [r]);
      && s'.Scope? && s'.scopeType == s.scopeType && s'.user == s.user
      && (IsSelective(s.scopeType) ==>
            s'.companies == s.companies + (if r.company.Some? then {r.company.value} else {})
                            + (if s.scopeType.Custom? then OwnCompanies(db, r) else {}))
  {
    NarrowerRoleRestrictsNothing(db, u, roles, r);
    EffectiveWithOneMore(roles, r);
    ResolvedScope(db, u, roles);
    ResolvedScope(db, u, roles + [r]);
    KnownCompaniesGrow(db, u, roles, r, Effective(roles).scopeType);
  }

  lemma NarrowerRoleGrowsObjects(db: Tables, u: User, roles: seq<Role>, r: Role, f: Fields, d: Dimension)
    requires SignedIn(u, roles) && Rank(r.scopeType) <= Rank(Effective(roles).scopeType) && Resolve(db, u, roles).Scope?
    requires Resolve(db, u, roles + [r]).Scope?
    ensures
      var s, s' := Resolve(db, u, roles), Resolve(db, u, roles + [r]);
      && ObjectIds(s, f, d) <= ObjectIds(s', f, d)
      && (s.scopeType.Custom? && !d.OfCompany? ==>
            (ObjectIds(s', f, d) != {}
             <==> ObjectIds(s, f, d) != {} || (r.scopeType.Custom? && HasField(f, d) && OwnIds(db, r, d) != {})))
  {
    var t := Effective(roles).scopeType;
    EffectiveWithOneMore(roles, r);
    ResolvedScope(db, u, roles);
    ResolvedScope(db, u, roles + [r]);
    IdsGrow(db, roles, r, t, d);
    FirstIds(db, roles, r, t, d);
  }

  lemma NarrowerRoleKeepsIff(db: Tables, u: User, roles: seq<Role>, r: Role, f: Fields)
    requires SignedIn(u, roles) && Rank(r.scopeType) <= Rank(Effective(roles).scopeType)
    requires CanShow(Resolve(db, u, roles), f)
    ensures
      var s, s' := Resolve(db, u, roles), Resolve(db, u, roles + [r]);
      Contains(s, s', f)
      <==> !IsSelective(s.scopeType) || (!BringsFirstCompany(db, s, r, f) && !BringsFirstObject(db, s, r, f))
  {
    NarrowerRoleGrowsScope(db, u, roles, r);
    NarrowerRoleGrowsObjects(db, u, roles, r, f, OfFactory);
    NarrowerRoleGrowsObjects(db, u, roles, r, f, OfDepartment);
    NarrowerRoleGrowsObjects(db, u, roles, r, f, OfWarehouse);
  }

  lemma WiderRoleAlone(db: Tables, roles: seq<Role>, r: Role, d: Dimension)
    requires roles != [] && Rank(Effective(roles).scopeType) < Rank(r.scopeType)
    ensures Granted(db, roles + [r], r.scopeType, d) == Granted(db, [r], r.scopeType, d)
  {
    EffectiveIsWidest(roles);
    GrantedSplit(db, roles, [r], r.scopeType, d);
    NarrowerGrantsNothing(db, roles, r.scopeType, d);
  }

  lemma WiderCompanies(db: Tables, u: User, roles: seq<Role>, r: Role)
    requires roles != [] && Rank(Effective(roles).scopeType) < Rank(r.scopeType)
    ensures AllCompanies(db, u, roles + [r], r.scopeType) == CompaniesWith(u, roles, r) + OwnCompanies(db, r)
  {
    CompaniesSplit(u, roles, r);
    WiderRoleAlone(db, roles, r, OfCompany);
  }

  /** With a wider role the tier is the role's, and only its own grants count. */
  lemma WiderRoleReplacesScope(db: Tables, u: User, roles: seq<Role>, r: Role, f: Fields)
    requires SignedIn(u, roles) && Rank(Effective(roles).scopeType) < Rank(r.scopeType)
    ensures
      var s' := Resolve(db, u, roles + [r]);
      && (s'.Scope? ==> s'.scopeType == r.scopeType && s'.user == u.id)
      && (s'.Restricted? ==> !r.scopeType.All? && !r.scopeType.Company? && !r.scopeType.Custom?)
      && (s'.Scope? && IsSelective(r.scopeType) ==> s'.companies == CompaniesWith(u, roles, r) + OwnCompanies(db, r))
      && (s'.Scope? && r.scopeType.Custom? ==>
            forall d: Dimension :: !d.OfCompany? ==>
              ObjectIds(s', f, d) == if HasField(f, d) then OwnIds(db, r, d) else {})
  {
    var t := r.scopeType;
    EffectiveWithOneMore(roles, r);
    ResolvedScope(db, u, roles + [r]);
    WiderCompanies(db, u, roles, r);
    WiderRoleAlone(db, roles, r, OfFactory);
    WiderRoleAlone(db, roles, r, OfDepartment);
    WiderRoleAlone(db, roles, r, OfWarehouse);
  }

  /** A single-dimension tier never contains a narrower one: that asks for another column, or for the owner. */
  lemma SingleContainsNoOther(s: Scope, s': Scope, f: Fields)
    requires s.Scope? && (s'.Scope? ==> Rank(s.scopeType) < Rank(s'.scopeType))
    requires s'.Scope? ==> s'.scopeType.Factory? || s'.scopeType.Warehouse? || s'.scopeType.Department?
    requires CanShow(s, f)
    ensures !Contains(s, s', f)
  {
  }

  lemma CustomContainsIff(db: Tables, s: Scope, s': Scope, r: Role, f: Fields)
    requires s.Scope? && s'.Scope? && s'.scopeType.Custom? && Rank(s.scopeType) < Rank(Custom)
    requires forall d: Dimension :: !d.OfCompany? ==>
      ObjectIds(s', f, d) == if HasField(f, d) then OwnIds(db, r, d) else {}
    ensures Contains(s, s', f)
       <==> && IsSelective(s.scopeType)
            && (GrantsSome(db, r, f) || (f.company && s'.companies != {}))
            && KeepsCompanies(s'.companies, s, f)
            && (GrantsSome(db, r, f) ==> KeepsObjects(db, s, r, f))
  {
    assert NamesSome(s', f) <==> GrantsSome(db, r, f);
  }

  lemma WiderRoleKeepsIff(db: Tables, u: User, roles: seq<Role>, r: Role, f: Fields)
    requires SignedIn(u, roles) && Rank(Effective(roles).scopeType) < Rank(r.scopeType)
    requires CanShow(Resolve(db, u, roles), f)
    ensures
      var s, s' := Resolve(db, u, roles), Resolve(db, u, roles + [r]);
      Contains(s, s', f) <==> WiderKeepsRows(db, u, roles, r, s, f)
  {
    var s, s' := Resolve(db, u, roles), Resolve(db, u, roles + [r]);
    WiderRoleReplacesScope(db, u, roles, r, f);
    ResolvedScope(db, u, roles);
    if r.scopeType.Custom? {
      CustomContainsIff(db, s, s', r, f);
    } else if !r.scopeType.All? && !r.scopeType.Company? {
      SingleContainsNoOther(s, s', f);
    }
  }

  /**
   One more role, of any type, hides no visible row of a model if and only if
   nothing was visible, the user is a superuser, or KeepsRows holds: a role no
   wider than the present tier brings neither the first company nor the first
   object of a custom scope; a wider one covers all companies and objects the
   user was confined to.
  */
  lemma ExtraRoleHidesIff(db: Tables, u: User, roles: seq<Role>, r: Role, f: Fields)
    ensures
      var s := Resolve(db, u, roles);
      (forall row :: Visible(db, u, roles, f, row) ==> Visible(db, u, roles + [r], f, row))
      <==> !CanShow(s, f) || u.isSuperuser || KeepsRows(db, u, roles, r, s, f)
  {
    var s, s' := Resolve(db, u, roles), Resolve(db, u, roles + [r]);
    assert (forall row :: Visible(db, u, roles, f, row) ==> Visible(db, u, roles + [r], f, row))
         <==> NeverHides(s, s', f) by {
      assert forall row :: Visible(db, u, roles, f, row) <==> Passes(Apply(s, f), row);
      assert forall row :: Visible(db, u, roles + [r], f, row) <==> Passes(Apply(s', f), row);
    }
    if s.Scope? && !u.isSuperuser {
      ResolvedScope(db, u, roles);
      ExtraRoleKeeps(db, u, roles, r, f);
    } else if s.Scope? {
      assert s' == s;
    } else {
      CanShowIff(s, f);
    }
  }

  lemma ExtraRoleKeeps(db: Tables, u: User, roles: seq<Role>, r: Role, f: Fields)
    requires SignedIn(u, roles) && Resolve(db, u, roles).Scope?
    ensures
      var s, s' := Resolve(db, u, roles), Resolve(db, u, roles + [r]);
      NeverHides(s, s', f) <==> !CanShow(s, f) || KeepsRows(db, u, roles, r, s, f)
  {
    var s, s' := Resolve(db, u, roles), Resolve(db, u, roles + [r]);
    ResolvedScope(db, u, roles);
    ResolvedScope(db, u, roles + [r]);
    NeverHidesIff(s, s', f);
    if CanShow(s, f) {
      if Rank(s.scopeType) < Rank(r.scopeType) {
        WiderRoleKeepsIff(db, u, roles, r, f);
      } else {
        NarrowerRoleKeepsIff(db, u, roles, r, f);
      }
    }
  }

  /**
   A role of the tier's own type never hides anything of a company scope, or of
   a single dimension once a company is known.
  */
  lemma KnownCompanyNeverHides(db: Tables, u: User, roles: seq<Role>, r: Role, f: Fields, row: Row)
    requires roles != [] && r.scopeType == Effective(roles).scopeType && !r.scopeType.Custom?
    requires r.scopeType.Company? || Companies(u, roles) != {}
    requires Visible(db, u, roles, f, row)
    ensures Visible(db, u, roles + [r], f, row)
  {
    FilterMatchesRule(Resolve(db, u, roles), f, row);
    CanShowIff(Resolve(db, u, roles), f);
    ExtraRoleHidesIff(db, u, roles, r, f);
    if SignedIn(u, roles) {
      ResolvedScope(db, u, roles);
    }
  }

  /**
   Someone who sees own rows only loses them with any wider role short of the
   whole: those that lie nowhere are hidden.
  */
  lemma WiderRoleHidesOwnRows(db: Tables, u: User, roles: seq<Role>, r: Role, f: Fields)
    requires SignedIn(u, roles) && Effective(roles).scopeType.Self? && IsSelective(r.scopeType) && f.owner
    ensures
      var row := Row(None, None, None, None, Some(u.id));
      Visible(db, u, roles, f, row) && !Visible(db, u, roles + [r], f, row)
  {
    var row := Row(None, None, None, None, Some(u.id));
    var s, s' := Resolve(db, u, roles), Resolve(db, u, roles + [r]);
    WiderRoleReplacesScope(db, u, roles, r, f);
    FilterMatchesRule(s, f, row);
    FilterMatchesRule(s', f, row);
    if s'.Scope? {
      AllowsByClauses(s', f, row);
    }
  }
}
