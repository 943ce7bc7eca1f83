/**
 Operation permissions of a user are cached under (user, permission version).
 A read is five separate database and cache accesses, and role changes, cache
 evictions and other readers may fall between any two of them; the version
 counter alone has to keep the cache in agreement with the tables.
*/
module PermissionCache {
  import opened Common

  type UserId = nat
  type RoleId = nat
  type ReaderId = nat
  type EditorId = nat
  type Codes = set<string>

  datatype User = User(isActive: bool, isSuperuser: bool, version: nat)

  datatype Role = Role(codes: Codes, isActive: bool, isSystem: bool)

  datatype Db = Db(users: map<UserId, User>, roles: map<RoleId, Role>, links: set<(UserId, RoleId)>, permissions: Codes)

  type Cache = map<(UserId, nat), Codes>

  /** A call of permission_codes between its accesses; `version` is that of the loaded user object,
      and `exempt` marks inactive users and superusers, for whom the tables are not consulted. */
  datatype Reader =
    | Loaded(user: UserId, version: nat, isActive: bool, isSuperuser: bool)
    | Missed(user: UserId, version: nat)
    | RolesRead(user: UserId, version: nat, roles: set<RoleId>)
    | CodesRead(user: UserId, version: nat, codes: Codes)
    | Returned(user: UserId, version: nat, codes: Codes, exempt: bool)

  /** update_user on an object that the view loaded before: the save writes the whole row back. */
  datatype Edit = Edit(user: UserId, row: User)

  datatype System = System(db: Db, cache: Cache, readers: map<ReaderId, Reader>, editors: map<EditorId, Edit>)

  datatype Error = UserNotFound | RoleNotFound | RoleInactive | PermissionNotFound | SystemRoleProtected | RoleInUse

  datatype Step =
    | Load(reader: ReaderId, user: UserId)
    | Advance(reader: ReaderId)
    | SyncUserRoles(user: UserId, roleIds: set<RoleId>)
    | SetRolePermissions(role: RoleId, codes: Codes)
    | TouchRole(role: RoleId)
    | CreateRole(role: RoleId, isSystem: bool)
    | DeleteRole(role: RoleId)
    | CreateUser(user: UserId)
    | SetUserActive(user: UserId, isActive: bool)
    | OpenUser(editor: EditorId, user: UserId)
    | SaveUser(editor: EditorId)
    | Evict(key: (UserId, nat))
    | SetRoleActive(role: RoleId, isActive: bool)

  // ---------------------------------------------------------------- queries

  function ActiveRoles(db: Db, u: UserId): set<RoleId> {
    set r | r in db.roles && db.roles[r].isActive && (u, r) in db.links
  }

  function CodesOf(db: Db, roles: set<RoleId>): Codes {
    set r, c | r in roles && r in db.roles && c in db.roles[r].codes :: c
  }

  /** What a computation without the cache gives now. */
  function Fresh(db: Db, u: UserId): Codes {
    CodesOf(db, ActiveRoles(db, u))
  }

  function BumpUsers(users: map<UserId, User>, affected: set<UserId>): map<UserId, User> {
    map u | u in users :: if u in affected then users[u].(version := users[u].version + 1) else users[u]
  }

  function UsersOf(db: Db, role: RoleId): set<UserId> {
    set u | u in db.users && (u, role) in db.links
  }

  // ---------------------------------------------------------------- the writing transactions

  function SyncRoles(db: Db, u: UserId, roleIds: set<RoleId>): Result<Db, Error> {
    if u !in db.users then Err(UserNotFound)
    else if !(roleIds <= db.roles.Keys) then Err(RoleNotFound)
    else if exists r :: r in roleIds && !db.roles[r].isActive then Err(RoleInactive)
    else
      var kept := set l | l in db.links && l.0 != u;
      var wanted := set r | r in roleIds :: (u, r);
      Ok(db.(links := kept + wanted, users := BumpUsers(db.users, {u})))
  }

  function SetPermissions(db: Db, role: RoleId, codes: Codes): Result<Db, Error> {
    if role !in db.roles then Err(RoleNotFound)
    else if !(codes <= db.permissions) then Err(PermissionNotFound)
    else Ok(db.(roles := db.roles[role := db.roles[role].(codes := codes)],
                users := BumpUsers(db.users, UsersOf(db, role))))
  }

  function Delete(db: Db, role: RoleId): Result<Db, Error> {
    if role !in db.roles then Err(RoleNotFound)
    else if db.roles[role].isSystem then Err(SystemRoleProtected)
    else if exists l :: l in db.links && l.1 == role then Err(RoleInUse)
    else Ok(db.(roles := db.roles - {role}))
  }

  function OrElse(r: Result<Db, Error>, db: Db): Db {
    if r.Ok? then r.value else db
  }

  // ---------------------------------------------------------------- steps and runs

  function AdvanceReader(s: System, i: ReaderId): System
    requires i in s.readers
  {
    match s.readers[i]
    case Loaded(u, v, isActive, isSuperuser) =>
      if !isActive then s.(readers := s.readers[i := Returned(u, v, {}, true)])
      else if isSuperuser then s.(readers := s.readers[i := Returned(u, v, {"*"}, true)])
      else if (u, v) in s.cache then s.(readers := s.readers[i := Returned(u, v, s.cache[(u, v)], false)])
      else s.(readers := s.readers[i := Missed(u, v)])
    case Missed(u, v) => s.(readers := s.readers[i := RolesRead(u, v, ActiveRoles(s.db, u))])
    case RolesRead(u, v, roles) => s.(readers := s.readers[i := CodesRead(u, v, CodesOf(s.db, roles))])
    case CodesRead(u, v, codes) =>
      s.(cache := s.cache[(u, v) := codes], readers := s.readers[i := Returned(u, v, codes, false)])
    case Returned(_, _, _, _) => s
  }

  function Apply(s: System, step: Step): System {
    match step
    case Load(i, u) =>
      if u !in s.db.users then s
      else
        var user := s.db.users[u];
        s.(readers := s.readers[i := Loaded(u, user.version, user.isActive, user.isSuperuser)])
    case Advance(i) => if i in s.readers then AdvanceReader(s, i) else s
    case SyncUserRoles(u, ids) => s.(db := OrElse(SyncRoles(s.db, u, ids), s.db))
    case SetRolePermissions(r, codes) => s.(db := OrElse(SetPermissions(s.db, r, codes), s.db))
    case TouchRole(r) => s.(db := s.db.(users := BumpUsers(s.db.users, UsersOf(s.db, r))))
    case CreateRole(r, isSystem) =>
      if r in s.db.roles || exists l :: l in s.db.links && l.1 == r then s
      else s.(db := s.db.(roles := s.db.roles[r := Role({}, true, isSystem)]))
    case DeleteRole(r) => s.(db := OrElse(Delete(s.db, r), s.db))
    case CreateUser(u) =>
      if u in s.db.users || (exists l :: l in s.db.links && l.0 == u) then s
      else s.(db := s.db.(users := s.db.users[u := User(true, false, 0)]))
    case SetUserActive(u, isActive) =>
      if u !in s.db.users then s
      else s.(db := s.db.(users := s.db.users[u := s.db.users[u].(isActive := isActive)]))
    case OpenUser(i, u) => if u !in s.db.users then s else s.(editors := s.editors[i := Edit(u, s.db.users[u])])
    case SaveUser(i) =>
      if i !in s.editors || s.editors[i].user !in s.db.users then s
      else s.(db := s.db.(users := s.db.users[s.editors[i].user := s.editors[i].row]))
    case Evict(key) => s.(cache := s.cache - {key})
    case SetRoleActive(r, isActive) =>
      if r !in s.db.roles then s
      else s.(db := s.db.(roles := s.db.roles[r := s.db.roles[r].(isActive := isActive)]))
  }

  function Run(s: System, trace: seq<Step>): System
    decreases |trace|
  {
    if trace == [] then s else Run(Apply(s, trace[0]), trace[1..])
  }

  /** The save of a row whose permission version has moved on since it was loaded. */
  predicate IsStaleSave(s: System, step: Step) {
    && step.SaveUser? && step.editor in s.editors && s.editors[step.editor].user in s.db.users
    && s.editors[step.editor].row.version != s.db.users[s.editors[step.editor].user].version
  }

  /** The two operations that change what a version stands for: codes without a bump, or the version itself. */
  predicate IsRisky(s: System, step: Step) {
    step.SetRoleActive? || IsStaleSave(s, step)
  }

  ghost predicate Careful(s: System, trace: seq<Step>)
    decreases |trace|
  {
    trace == [] || (!IsRisky(s, trace[0]) && Careful(Apply(s, trace[0]), trace[1..]))
  }

  // ---------------------------------------------------------------- agreement

  function Version(db: Db, u: UserId): nat {
    if u in db.users then db.users[u].version else 0
  }

  /** Every entry under a user's present version is what a fresh computation would give. */
  ghost predicate CacheFresh(s: System) {
    forall u, v :: (u, v) in s.cache && v == Version(s.db, u) ==> s.cache[(u, v)] == Fresh(s.db, u)
  }

  ghost predicate NoFutureEntries(s: System) {
    forall u, v :: (u, v) in s.cache ==> u in s.db.users && v <= Version(s.db, u)
  }

  /** What a reader carries is up to date unless its version is not. */
  ghost predicate ReaderCurrent(db: Db, k: Reader) {
    && k.user in db.users && k.version <= Version(db, k.user)
    && (k.version == Version(db, k.user) ==>
          && (k.RolesRead? ==> k.roles == ActiveRoles(db, k.user))
          && (k.CodesRead? ==> k.codes == Fresh(db, k.user))
          && (k.Returned? && !k.exempt ==> k.codes == Fresh(db, k.user)))
  }

  ghost predicate Coherent(s: System) {
    CacheFresh(s) && NoFutureEntries(s) && forall i :: i in s.readers ==> ReaderCurrent(s.db, s.readers[i])
  }

  /** What a reader may still write under a current version is what a fresh computation would give. */
  ghost predicate ReaderSound(db: Db, k: Reader) {
    && k.user in db.users && k.version <= Version(db, k.user)
    && (k.version == Version(db, k.user) ==>
          && (k.RolesRead? ==>
                && (forall r :: r in k.roles ==> r in db.roles && (k.user, r) in db.links)
                && CodesOf(db, k.roles) == Fresh(db, k.user))
          && (k.CodesRead? ==> k.codes == Fresh(db, k.user)))
  }

  /** Weaker than Coherent: the roles a reader carries may have been switched, as long as their codes are right. */
  ghost predicate Sound(s: System) {
    CacheFresh(s) && NoFutureEntries(s) && forall i :: i in s.readers ==> ReaderSound(s.db, s.readers[i])
  }

  lemma CarriedCodesStable(s: System, step: Step, u: UserId, roles: set<RoleId>)
    requires !IsRisky(s, step) && u in s.db.users
    requires forall r :: r in roles ==> r in s.db.roles && (u, r) in s.db.links
    ensures
      var t := Apply(s, step);
      Version(t.db, u) == Version(s.db, u) ==>
        && (forall r :: r in roles ==> r in t.db.roles && (u, r) in t.db.links)
        && CodesOf(t.db, roles) == CodesOf(s.db, roles)
  {
    var t := Apply(s, step);
    if Version(t.db, u) == Version(s.db, u) {
      assert forall r :: r in roles ==> r in t.db.roles && t.db.roles[r].codes == s.db.roles[r].codes;
    }
  }

  lemma ActiveRolesStable(s: System, step: Step, u: UserId)
    requires !IsRisky(s, step) && u in s.db.users
    ensures
      var t := Apply(s, step);
      && u in t.db.users && Version(t.db, u) >= Version(s.db, u)
      && (Version(t.db, u) == Version(s.db, u) ==> ActiveRoles(t.db, u) == ActiveRoles(s.db, u))
  {
  }

  /** Each step either moves a user's version forward or leaves the user's roles and codes as they are. */
  lemma StableOrBumped(s: System, step: Step, u: UserId)
    requires !IsRisky(s, step) && u in s.db.users
    ensures
      var t := Apply(s, step);
      && u in t.db.users && Version(t.db, u) >= Version(s.db, u)
      && (Version(t.db, u) == Version(s.db, u) ==>
            ActiveRoles(t.db, u) == ActiveRoles(s.db, u) && Fresh(t.db, u) == Fresh(s.db, u))
  {
    ActiveRolesStable(s, step, u);
    CarriedCodesStable(s, step, u, ActiveRoles(s.db, u));
  }

  lemma UntouchedReaderCurrent(s: System, step: Step, k: Reader)
    requires ReaderCurrent(s.db, k) && !IsRisky(s, step)
    ensures ReaderCurrent(Apply(s, step).db, k)
  {
    StableOrBumped(s, step, k.user);
  }

  lemma AdvancedReaderCurrent(s: System, i: ReaderId)
    requires Coherent(s) && i in s.readers
    ensures AdvanceReader(s, i).db == s.db && i in AdvanceReader(s, i).readers
    ensures ReaderCurrent(s.db, AdvanceReader(s, i).readers[i])
  {
    assert ReaderCurrent(s.db, s.readers[i]);
  }

  lemma StepKeepsReaderCurrent(s: System, step: Step, i: ReaderId)
    requires Coherent(s) && !IsRisky(s, step) && i in Apply(s, step).readers
    ensures ReaderCurrent(Apply(s, step).db, Apply(s, step).readers[i])
  {
    if i in s.readers && Apply(s, step).readers[i] == s.readers[i] {
      UntouchedReaderCurrent(s, step, s.readers[i]);
    } else if step.Advance? {
      AdvancedReaderCurrent(s, i);
    }
  }

  /** What the readers will write is right, so what is written is. */
  lemma StepKeepsCache(s: System, step: Step)
    requires CacheFresh(s) && NoFutureEntries(s) && !IsRisky(s, step)
    requires forall i :: i in s.readers ==> ReaderSound(s.db, s.readers[i])
    ensures CacheFresh(Apply(s, step)) && NoFutureEntries(Apply(s, step))
  {
    var t := Apply(s, step);
    forall u, v | (u, v) in t.cache
      ensures u in t.db.users && v <= Version(t.db, u)
      ensures v == Version(t.db, u) ==> t.cache[(u, v)] == Fresh(t.db, u)
    {
      if (u, v) !in s.cache || t.cache[(u, v)] != s.cache[(u, v)] {
        assert step.Advance? && s.readers[step.reader].user == u;
      }
      StableOrBumped(s, step, u);
    }
  }

  lemma StepKeepsCoherent(s: System, step: Step)
    requires Coherent(s) && !IsRisky(s, step)
    ensures Coherent(Apply(s, step))
  {
    forall i | i in Apply(s, step).readers
      ensures ReaderCurrent(Apply(s, step).db, Apply(s, step).readers[i])
    {
      StepKeepsReaderCurrent(s, step, i);
    }
    StepKeepsCache(s, step);
  }

  /** Main result: over every interleaving without role switches and stale saves, the cache agrees with the database. */
  lemma {:induction false} CacheAgrees(s: System, trace: seq<Step>)
    requires Coherent(s) && Careful(s, trace)
    ensures Coherent(Run(s, trace))
    decreases |trace|
  {
    if trace != [] {
      StepKeepsCoherent(s, trace[0]);
      CacheAgrees(Apply(s, trace[0]), trace[1..]);
    }
  }

  // ---------------------------------------------------------------- switching a role

  lemma UntouchedReaderSound(s: System, step: Step, k: Reader)
    requires ReaderSound(s.db, k) && !IsRisky(s, step)
    ensures ReaderSound(Apply(s, step).db, k)
  {
    StableOrBumped(s, step, k.user);
    if k.RolesRead? && k.version == Version(s.db, k.user) {
      CarriedCodesStable(s, step, k.user, k.roles);
    }
  }

  lemma AdvancedReaderSound(s: System, i: ReaderId)
    requires Sound(s) && i in s.readers
    ensures AdvanceReader(s, i).db == s.db && i in AdvanceReader(s, i).readers
    ensures ReaderSound(s.db, AdvanceReader(s, i).readers[i])
  {
    assert ReaderSound(s.db, s.readers[i]);
  }

  lemma StepKeepsReaderSound(s: System, step: Step, i: ReaderId)
    requires Sound(s) && !IsRisky(s, step) && i in Apply(s, step).readers
    ensures ReaderSound(Apply(s, step).db, Apply(s, step).readers[i])
  {
    if i in s.readers && Apply(s, step).readers[i] == s.readers[i] {
      UntouchedReaderSound(s, step, s.readers[i]);
    } else if step.Advance? {
      AdvancedReaderSound(s, i);
    }
  }

  lemma StepKeepsSound(s: System, step: Step)
    requires Sound(s) && !IsRisky(s, step)
    ensures Sound(Apply(s, step))
  {
    var t := Apply(s, step);
    forall i | i in t.readers
      ensures ReaderSound(t.db, t.readers[i])
    {
      StepKeepsReaderSound(s, step, i);
    }
    StepKeepsCache(s, step);
  }

  lemma {:induction false} RunKeepsSound(s: System, trace: seq<Step>)
    requires Sound(s) && Careful(s, trace)
    ensures Sound(Run(s, trace))
    decreases |trace|
  {
    if trace != [] {
      StepKeepsSound(s, trace[0]);
      RunKeepsSound(Apply(s, trace[0]), trace[1..]);
    }
  }

  /** The cache agrees with the tables now and after whatever follows. */
  ghost predicate StaysFresh(s: System) {
    forall trace :: Careful(s, trace) ==> CacheFresh(Run(s, trace))
  }

  /** The user has an entry under the current version, or a reader that may still write one from what it read. */
  ghost predicate IsExposed(s: System, u: UserId) {
    || (u, Version(s.db, u)) in s.cache
    || exists i :: WillWrite(s, i, u)
  }

  predicate WillWrite(s: System, i: ReaderId, u: UserId) {
    && i in s.readers && s.readers[i].user == u && s.readers[i].version == Version(s.db, u)
    && (s.readers[i].RolesRead? || s.readers[i].CodesRead?)
  }

  /** The role gives a holder nothing that the holder's other active roles do not give. */
  predicate IsCovered(db: Db, role: RoleId, u: UserId)
    requires role in db.roles
  {
    (u, role) in db.links ==> db.roles[role].codes <= CodesOf(db, ActiveRoles(db, u) - {role})
  }

  /**
   Switching a role on or off keeps the cache right, now and over every
   continuation, exactly when the role is covered for every user who has a live
   entry or a read in flight that has already seen roles.
  */
  lemma RoleSwitchKeepsCacheIff(s: System, role: RoleId, isActive: bool)
    requires Coherent(s) && role in s.db.roles && s.db.roles[role].isActive != isActive
    ensures StaysFresh(Apply(s, SetRoleActive(role, isActive)))
       <==> forall u: UserId :: IsExposed(s, u) ==> IsCovered(s.db, role, u)
  {
    var t := Apply(s, SetRoleActive(role, isActive));
    if forall u: UserId :: IsExposed(s, u) ==> IsCovered(s.db, role, u) {
      CoveredSwitchIsSound(s, role, isActive);
      forall trace | Careful(t, trace)
        ensures CacheFresh(Run(t, trace))
      {
        RunKeepsSound(t, trace);
      }
    }
    if StaysFresh(t) {
      forall u: UserId | IsExposed(s, u)
        ensures IsCovered(s.db, role, u)
      {
        SwitchEffect(s.db, role, isActive, u);
        if Fresh(t.db, u) != Fresh(s.db, u) {
          var trace := StaleWrite(s, role, isActive, u);
          assert false;
        }
      }
    }
  }

  lemma CoveredSwitchIsSound(s: System, role: RoleId, isActive: bool)
    requires Coherent(s) && role in s.db.roles && s.db.roles[role].isActive != isActive
    requires forall u: UserId :: IsExposed(s, u) ==> IsCovered(s.db, role, u)
    ensures Sound(Apply(s, SetRoleActive(role, isActive)))
  {
    var t := Apply(s, SetRoleActive(role, isActive));
    forall u, v | (u, v) in t.cache && v == Version(t.db, u)
      ensures t.cache[(u, v)] == Fresh(t.db, u)
    {
      SwitchEffect(s.db, role, isActive, u);
      assert IsExposed(s, u);
    }
    forall i | i in t.readers
      ensures ReaderSound(t.db, t.readers[i])
    {
      var k := s.readers[i];
      SwitchEffect(s.db, role, isActive, k.user);
      if WillWrite(s, i, k.user) {
        assert IsExposed(s, k.user) && IsCovered(s.db, role, k.user);
        assert k.RolesRead? ==> CodesOf(t.db, k.roles) == CodesOf(s.db, k.roles);
      }
    }
  }

  /** An exposed user whose codes the switch changes: what is cached, or about to be written, is no longer right. */
  lemma StaleWrite(s: System, role: RoleId, isActive: bool, u: UserId) returns (trace: seq<Step>)
    requires Coherent(s) && role in s.db.roles && IsExposed(s, u)
    requires Fresh(Apply(s, SetRoleActive(role, isActive)).db, u) != Fresh(s.db, u)
    ensures Careful(Apply(s, SetRoleActive(role, isActive)), trace)
    ensures !CacheFresh(Run(Apply(s, SetRoleActive(role, isActive)), trace))
  {
    var t := Apply(s, SetRoleActive(role, isActive));
    var key := (u, Version(s.db, u));
    if key in s.cache {
      trace := [];
      assert t.cache[key] == Fresh(s.db, u);
    } else {
      var i :| WillWrite(s, i, u);
      var k := s.readers[i];
      assert ReaderCurrent(s.db, k);
      assert k.RolesRead? ==> CodesOf(t.db, k.roles) == CodesOf(s.db, k.roles);
      trace := if k.CodesRead? then [Advance(i)] else [Advance(i), Advance(i)];
      assert trace[1..] == if k.CodesRead? then [] else [Advance(i)];
      var read := if k.CodesRead? then t else Apply(t, Advance(i));
      var final := Apply(read, Advance(i));
      assert final.cache[key] == Fresh(s.db, u);
      assert [Advance(i)][1..] == [];
      assert Run(read, [Advance(i)]) == final;
      assert Run(t, trace) == final;
    }
  }

  /**
   In terms of the tables alone: a switch is safe whatever is cached and
   whatever is being read, exactly when it is covered for every user.
  */
  lemma RoleSwitchIsSafeIff(db: Db, role: RoleId, isActive: bool)
    requires role in db.roles && db.roles[role].isActive != isActive
    ensures (forall s :: Coherent(s) && s.db == db ==> StaysFresh(Apply(s, SetRoleActive(role, isActive))))
       <==> forall u :: u in db.users ==> IsCovered(db, role, u)
  {
    if forall u :: u in db.users ==> IsCovered(db, role, u) {
      forall s | Coherent(s) && s.db == db
        ensures StaysFresh(Apply(s, SetRoleActive(role, isActive)))
      {
        RoleSwitchKeepsCacheIff(s, role, isActive);
      }
    }
    if forall s :: Coherent(s) && s.db == db ==> StaysFresh(Apply(s, SetRoleActive(role, isActive))) {
      forall u | u in db.users
        ensures IsCovered(db, role, u)
      {
        var s := System(db, map[(u, Version(db, u)) := Fresh(db, u)], map[], map[]);
        assert Coherent(s) && IsExposed(s, u);
        RoleSwitchKeepsCacheIff(s, role, isActive);
      }
    }
  }

  // ---------------------------------------------------------------- saving a user as a whole

  /** Whatever is cached and read, saving a row is safe exactly when its permission version is still the present one. */
  lemma SaveIsSafeIff(db: Db, u: UserId, row: User)
    requires u in db.users && row.version <= db.users[u].version
    ensures (forall s, i :: Coherent(s) && s.db == db && i in s.editors && s.editors[i] == Edit(u, row)
                            ==> StaysFresh(Apply(s, SaveUser(i))))
       <==> row.version == db.users[u].version
  {
    if row.version == db.users[u].version {
      forall s, i | Coherent(s) && s.db == db && i in s.editors && s.editors[i] == Edit(u, row)
        ensures StaysFresh(Apply(s, SaveUser(i)))
      {
        StepKeepsCoherent(s, SaveUser(i));
        CoherentStaysFresh(Apply(s, SaveUser(i)));
      }
    } else {
      var other := if Fresh(db, u) == {} then {""} else {};
      var s := System(db, map[(u, row.version) := other], map[], map[0 := Edit(u, row)]);
      assert Coherent(s);
      var t := Apply(s, SaveUser(0));
      assert Fresh(t.db, u) == Fresh(db, u) by {
        assert ActiveRoles(t.db, u) == ActiveRoles(db, u);
      }
      assert t.cache[(u, Version(t.db, u))] != Fresh(t.db, u);
      assert Run(t, []) == t && Careful(t, []);
      assert !StaysFresh(t);
    }
  }

  lemma CoherentStaysFresh(s: System)
    requires Coherent(s)
    ensures StaysFresh(s)
  {
    forall trace | Careful(s, trace)
      ensures CacheFresh(Run(s, trace))
    {
      CacheAgrees(s, trace);
    }
  }

  /**
   How it goes wrong: a change moves the version on, and the save of a row
   loaded before revives the entry it had retired.
  */
  lemma StaleSaveRevivesEntry(s: System, i: EditorId, u: UserId, change: Step)
    requires Coherent(s) && u in s.db.users && i in s.editors && s.editors[i] == Edit(u, s.db.users[u])
    requires (u, Version(s.db, u)) in s.cache && !IsRisky(s, change)
    requires Fresh(Apply(s, change).db, u) != Fresh(s.db, u)
    ensures !CacheFresh(Apply(Apply(s, change), SaveUser(i)))
  {
    var t := Apply(s, change);
    StableOrBumped(s, change, u);
    var saved := Apply(t, SaveUser(i));
    assert t.cache == s.cache && t.editors == s.editors;
    assert Fresh(saved.db, u) == Fresh(t.db, u) by {
      assert ActiveRoles(saved.db, u) == ActiveRoles(t.db, u);
    }
    assert saved.cache[(u, Version(saved.db, u))] == Fresh(s.db, u);
  }

  lemma SwitchEffect(db: Db, role: RoleId, isActive: bool, u: UserId)
    requires role in db.roles && db.roles[role].isActive != isActive
    ensures
      var db' := db.(roles := db.roles[role := db.roles[role].(isActive := isActive)]);
      (Fresh(db', u) == Fresh(db, u))
      <==> ((u, role) in db.links ==> db.roles[role].codes <= CodesOf(db, ActiveRoles(db, u) - {role}))
  {
    var db' := db.(roles := db.roles[role := db.roles[role].(isActive := isActive)]);
    var others := ActiveRoles(db, u) - {role};
    assert ActiveRoles(db', u) - {role} == others;
    assert CodesOf(db', others) == CodesOf(db, others);
    if (u, role) in db.links {
      var with := others + {role};
      assert CodesOf(db, with) == CodesOf(db, others) + db.roles[role].codes;
      assert CodesOf(db', with) == CodesOf(db', others) + db.roles[role].codes;
      if isActive {
        assert ActiveRoles(db', u) == with && ActiveRoles(db, u) == others;
      } else {
        assert ActiveRoles(db, u) == with && ActiveRoles(db', u) == others;
      }
    } else {
      assert ActiveRoles(db', u) == ActiveRoles(db, u) == others;
    }
  }

  // ---------------------------------------------------------------- what the tables say

  /** A user's codes are those of some active role the user is linked to. */
  lemma FreshIff(db: Db, u: UserId, code: string)
    ensures code in Fresh(db, u)
       <==> exists r :: r in db.roles && db.roles[r].isActive && (u, r) in db.links && code in db.roles[r].codes
  {
    if r :| r in db.roles && db.roles[r].isActive && (u, r) in db.links && code in db.roles[r].codes {
      assert r in ActiveRoles(db, u);
    }
  }

  /** The role has exactly the given codes; nothing else of it, and no other role, has changed. */
  ghost predicate CodesReplaced(before: map<RoleId, Role>, after: map<RoleId, Role>, role: RoleId, codes: Codes) {
    && after.Keys == before.Keys && role in before
    && after[role].codes == codes
    && after[role].isActive == before[role].isActive && after[role].isSystem == before[role].isSystem
    && forall r :: r in before && r != role ==> after[r] == before[r]
  }

  /** The versions of exactly the given users have moved on by one; nothing else of any user has changed. */
  ghost predicate VersionsMoved(before: map<UserId, User>, after: map<UserId, User>, moved: set<UserId>) {
    && after.Keys == before.Keys
    && forall u :: u in before ==>
         && after[u].isActive == before[u].isActive && after[u].isSuperuser == before[u].isSuperuser
         && after[u].version == before[u].version + if u in moved then 1 else 0
  }

  /** After the codes of a role were replaced its users have the new ones if it is active, and those of other roles. */
  lemma ReplacedCodesApply(db: Db, role: RoleId, codes: Codes, u: UserId, code: string)
    requires SetPermissions(db, role, codes).Ok?
    ensures
      var later := SetPermissions(db, role, codes).value;
      code in Fresh(later, u)
      <==> || ((u, role) in db.links && db.roles[role].isActive && code in codes)
           || exists r :: r != role && r in db.roles && db.roles[r].isActive && (u, r) in db.links
                          && code in db.roles[r].codes
  {
    var later := SetPermissions(db, role, codes).value;
    FreshIff(later, u, code);
    if r :| r in later.roles && later.roles[r].isActive && (u, r) in later.links && code in later.roles[r].codes {
      assert r != role ==> later.roles[r] == db.roles[r];
    }
    if r :| r != role && r in db.roles && db.roles[r].isActive && (u, r) in db.links && code in db.roles[r].codes {
      assert later.roles[r] == db.roles[r];
    }
  }

  /** After a user's roles were set, the user has the codes of exactly the active ones among them. */
  lemma SyncedRolesApply(db: Db, u: UserId, roleIds: set<RoleId>, code: string)
    requires SyncRoles(db, u, roleIds).Ok?
    ensures code in Fresh(SyncRoles(db, u, roleIds).value, u)
       <==> exists r :: r in roleIds && r in db.roles && code in db.roles[r].codes
  {
    FreshIff(SyncRoles(db, u, roleIds).value, u, code);
  }

  /** What permission_codes should answer: nothing for an inactive user, everything for a superuser. */
  function Answer(db: Db, u: UserId): Codes
    requires u in db.users
  {
    if !db.users[u].isActive then {} else if db.users[u].isSuperuser then {"*"} else Fresh(db, u)
  }

  /** Three further steps of a reader that missed the cache answer from the tables. */
  lemma MissedReadAnswers(s: System, i: ReaderId)
    requires i in s.readers && s.readers[i].Missed?
    ensures
      var t := AdvanceReader(AdvanceReader(AdvanceReader(s, i), i), i);
      && t.db == s.db && i in t.readers && t.readers[i].Returned?
      && t.readers[i].codes == Fresh(s.db, s.readers[i].user)
  {
    var k := s.readers[i];
    assert AdvanceReader(s, i).readers[i] == RolesRead(k.user, k.version, ActiveRoles(s.db, k.user));
  }

  /** One step of a reader that was just loaded: an answer, or a miss. */
  lemma LoadedReadGoesOn(s: System, i: ReaderId, u: UserId)
    requires u in s.db.users && CacheFresh(s)
    ensures
      var t := AdvanceReader(Apply(s, Load(i, u)), i);
      && t.db == s.db && i in t.readers && t.readers[i].user == u
      && if t.readers[i].Returned? then t.readers[i].codes == Answer(s.db, u)
         else t.readers[i].Missed? && Answer(s.db, u) == Fresh(s.db, u)
  {
  }

  function Advances(i: ReaderId, n: nat): seq<Step> {
    if n == 0 then [] else [Advance(i)] + Advances(i, n - 1)
  }

  lemma RunFirst(s: System, step: Step, rest: seq<Step>)
    ensures Run(s, [step] + rest) == Run(Apply(s, step), rest)
  {
    assert ([step] + rest)[1..] == rest;
  }

  lemma {:induction false} RunAdvances(s: System, i: ReaderId, n: nat)
    requires i in s.readers
    ensures n > 0 ==> i in AdvanceReader(s, i).readers
    ensures n > 0 ==> Run(s, Advances(i, n)) == Run(AdvanceReader(s, i), Advances(i, n - 1))
    ensures n == 0 || s.readers[i].Returned? ==> Run(s, Advances(i, n)) == s
  {
    if n > 0 {
      RunFirst(s, Advance(i), Advances(i, n - 1));
      if s.readers[i].Returned? {
        RunAdvances(s, i, n - 1);
      }
    }
  }

  lemma RunThree(s: System, i: ReaderId)
    requires i in s.readers
    ensures i in AdvanceReader(s, i).readers && i in AdvanceReader(AdvanceReader(s, i), i).readers
    ensures Run(s, Advances(i, 3)) == AdvanceReader(AdvanceReader(AdvanceReader(s, i), i), i)
  {
    RunAdvances(s, i, 3);
    RunAdvances(AdvanceReader(s, i), i, 2);
    RunAdvances(AdvanceReader(AdvanceReader(s, i), i), i, 1);
    RunAdvances(AdvanceReader(AdvanceReader(AdvanceReader(s, i), i), i), i, 0);
  }

  /** A read that nothing disturbs, in five steps: what the tables and the user's flags say. */
  lemma UndisturbedRead(s: System, i: ReaderId, u: UserId)
    requires u in s.db.users && CacheFresh(s)
    ensures
      var t := Run(s, [Load(i, u)] + Advances(i, 4));
      && t.db == s.db && i in t.readers && t.readers[i].Returned? && t.readers[i].codes == Answer(s.db, u)
  {
    var loaded := Apply(s, Load(i, u));
    RunFirst(s, Load(i, u), Advances(i, 4));
    RunAdvances(loaded, i, 4);
    var first := AdvanceReader(loaded, i);
    LoadedReadGoesOn(s, i, u);
    RunAdvances(first, i, 3);
    if first.readers[i].Missed? {
      MissedReadAnswers(first, i);
      RunThree(first, i);
    }
  }

  /** New menus or scopes of a role move the versions of its users on, and nothing else. */
  lemma TouchMovesVersions(s: System, role: RoleId)
    ensures
      var t := Apply(s, TouchRole(role));
      && VersionsMoved(s.db.users, t.db.users, set x | x in s.db.users && (x, role) in s.db.links)
      && t == s.(db := s.db.(users := t.db.users))
  {
  }

  /** A switch of a user keeps everybody's codes; from then on the user's own reads answer nothing. */
  lemma SwitchedUserReadsNothing(s: System, i: ReaderId, u: UserId, isActive: bool)
    requires u in s.db.users && CacheFresh(s)
    ensures
      var t := Apply(s, SetUserActive(u, isActive));
      && CacheFresh(t) && (forall x :: Fresh(t.db, x) == Fresh(s.db, x))
      && u in t.db.users && t.db.users[u] == s.db.users[u].(isActive := isActive)
      && (!isActive ==> Answer(t.db, u) == {})
      && forall x :: x in s.db.users && x != u ==> x in t.db.users && Answer(t.db, x) == Answer(s.db, x)
  {
    var t := Apply(s, SetUserActive(u, isActive));
    forall x: UserId
      ensures Fresh(t.db, x) == Fresh(s.db, x)
    {
      assert ActiveRoles(t.db, x) == ActiveRoles(s.db, x);
    }
  }

  /** New rows start without codes and take none from anybody. */
  lemma NewRowsAreEmpty(s: System, role: RoleId, u: UserId, isSystem: bool)
    requires role !in s.db.roles && (forall x: UserId :: (x, role) !in s.db.links)
    requires u !in s.db.users && (forall r: RoleId :: (u, r) !in s.db.links)
    ensures
      var t := Apply(s, CreateRole(role, isSystem));
      role in t.db.roles && t.db.roles[role] == Role({}, true, isSystem) && t.db.links == s.db.links
    ensures
      var t := Apply(s, CreateUser(u));
      u in t.db.users && t.db.users[u] == User(true, false, 0) && Answer(t.db, u) == {}
  {
  }

  /** What a read answers without the tables: nothing for an inactive user, everything for a superuser. */
  lemma ExemptReadersAnswer(s: System, i: ReaderId)
    requires i in s.readers && s.readers[i].Loaded? && (!s.readers[i].isActive || s.readers[i].isSuperuser)
    ensures
      var k := Apply(s, Advance(i)).readers[i];
      && k.Returned? && k.exempt && Apply(s, Advance(i)).cache == s.cache
      && k.codes == if s.readers[i].isActive then {"*"} else {}
  {
  }

  lemma BumpMovesVersions(users: map<UserId, User>, moved: set<UserId>)
    ensures VersionsMoved(users, BumpUsers(users, moved), moved)
  {
  }

  lemma SyncRefusals(db: Db, u: UserId, roleIds: set<RoleId>)
    ensures SyncRoles(db, u, roleIds).Ok?
       <==> u in db.users && forall r :: r in roleIds ==> r in db.roles && db.roles[r].isActive
    ensures roleIds <= db.roles.Keys <==> forall r :: r in roleIds ==> r in db.roles
  {
  }

  /** The user's links are exactly the given roles; nobody else's have changed. */
  ghost predicate LinksReplaced(
      before: set<(UserId, RoleId)>, after: set<(UserId, RoleId)>, u: UserId, roleIds: set<RoleId>) {
    && (forall r :: (u, r) in after <==> r in roleIds)
    && (forall v, r :: v != u ==> ((v, r) in after <==> (v, r) in before))
  }

  /** Dropping what is not wanted and adding what is missing leaves exactly the wanted links of the user. */
  lemma LinksBecomeWanted(
      links: set<(UserId, RoleId)>, u: UserId, roleIds: set<RoleId>, kept: set<(UserId, RoleId)>,
      added: set<(UserId, RoleId)>)
    requires kept == set l | l in links && (l.0 != u || l.1 in roleIds)
    requires added == set r | r in roleIds && r !in (set l | l in kept && l.0 == u :: l.1) :: (u, r)
    ensures kept + added == (set l | l in links && l.0 != u) + (set r | r in roleIds :: (u, r))
    ensures LinksReplaced(links, kept + added, u, roleIds)
  {
  }

  /** The methods below replace the tables in one go; the cache stays in agreement as after the step. */
  lemma TransactionsKeepFresh(s: System, role: RoleId, codes: Codes, u: UserId, roleIds: set<RoleId>)
    requires CacheFresh(s) && NoFutureEntries(s) && s.readers == map[]
    ensures
      var t := s.(db := OrElse(SetPermissions(s.db, role, codes), s.db));
      CacheFresh(t) && NoFutureEntries(t)
    ensures
      var t := s.(db := OrElse(SyncRoles(s.db, u, roleIds), s.db));
      CacheFresh(t) && NoFutureEntries(t)
  {
    StepKeepsCache(s, Step.SetRolePermissions(role, codes));
    StepKeepsCache(s, Step.SyncUserRoles(u, roleIds));
  }

  // ---------------------------------------------------------------- the services

  /** The tables and the cache as one worker sees them between other workers' transactions. */
  class AuthStore {
    var users: map<UserId, User>
    var roles: map<RoleId, Role>
    var links: set<(UserId, RoleId)>
    var permissions: Codes
    var cache: Cache

    constructor (db: Db)
      ensures Tables() == db && cache == map[]
    {
      users, roles, links, permissions, cache := db.users, db.roles, db.links, db.permissions, map[];
    }

    ghost function Tables(): Db
      reads this
    {
      Db(users, roles, links, permissions)
    }

    ghost function Snapshot(): System
      reads this
    {
      System(Tables(), cache, map[], map[])
    }

    ghost predicate IsFresh()
      reads this
    {
      CacheFresh(Snapshot()) && NoFutureEntries(Snapshot())
    }

    /** An undisturbed read with a user object loaded now: correct, and it leaves the cache in agreement. */
    method PermissionCodes(u: UserId) returns (codes: Codes)
      requires u in users && IsFresh()
      modifies this`cache
      ensures IsFresh()
      ensures codes == if !users[u].isActive then {} else if users[u].isSuperuser then {"*"} else Fresh(Tables(), u)
      ensures forall key :: key in old(cache) ==> key in cache && cache[key] == old(cache)[key]
      ensures users[u].isActive && !users[u].isSuperuser ==>
                forall code :: code in codes
                  <==> exists r :: r in roles && roles[r].isActive && (u, r) in links && code in roles[r].codes
    {
      forall code: string
        ensures code in Fresh(Tables(), u)
           <==> exists r :: r in roles && roles[r].isActive && (u, r) in links && code in roles[r].codes
      {
        FreshIff(Tables(), u, code);
      }
      var user := users[u];
      if !user.isActive {
        return {};
      }
      if user.isSuperuser {
        return {"*"};
      }
      var key := (u, user.version);
      if key in cache {
        return cache[key];
      }
      var roleIds := set r | r in roles && roles[r].isActive && (u, r) in links;
      assert roleIds == ActiveRoles(Tables(), u);
      codes := set r, c | r in roleIds && c in roles[r].codes :: c;
      assert codes == CodesOf(Tables(), roleIds);
      cache := cache[key := codes];
    }

    /** Everything required is owned; a superuser's wildcard owns everything. */
    method HasPermissionCodes(u: UserId, required: Codes) returns (allowed: bool)
      requires u in users && IsFresh()
      modifies this`cache
      ensures IsFresh()
      ensures allowed <==>
                || required == {}
                || (users[u].isActive
                    && (users[u].isSuperuser || required <= Fresh(Tables(), u) || "*" in Fresh(Tables(), u)))
    {
      if required == {} {
        return true;
      }
      var owned := PermissionCodes(u);
      if "*" in owned {
        return true;
      }
      allowed := required <= owned;
    }

    /** Unlink what is no longer wanted, link what is missing, then move the version on. */
    method SyncUserRoles(u: UserId, roleIds: set<RoleId>) returns (error: Option<Error>)
      modifies this`links, this`users
      ensures Tables() == OrElse(SyncRoles(old(Tables()), u, roleIds), old(Tables()))
      ensures error.None? <==> SyncRoles(old(Tables()), u, roleIds).Ok?
      ensures error.None? ==>
                LinksReplaced(old(links), links, u, roleIds) && VersionsMoved(old(users), users, {u})
      ensures error.None? <==> u in users && forall r :: r in roleIds ==> r in roles && roles[r].isActive
      ensures error == Some(RoleNotFound) <==> u in users && exists r :: r in roleIds && r !in roles
      ensures error == Some(UserNotFound) <==> u !in users
      ensures error.Some? ==> links == old(links) && users == old(users)
      ensures old(IsFresh()) ==> IsFresh()
    {
      SyncRefusals(Tables(), u, roleIds);
      if IsFresh() {
        TransactionsKeepFresh(Snapshot(), 0, {}, u, roleIds);
      }
      if u !in users {
        return Some(UserNotFound);
      }
      if !(roleIds <= roles.Keys) {
        return Some(RoleNotFound);
      }
      if exists r :: r in roleIds && !roles[r].isActive {
        return Some(RoleInactive);
      }
      var kept := set l | l in links && (l.0 != u || l.1 in roleIds);
      var existing := set l | l in kept && l.0 == u :: l.1;
      var added := set r | r in roleIds && r !in existing :: (u, r);
      LinksBecomeWanted(links, u, roleIds, kept, added);
      links := kept + added;
      BumpMovesVersions(users, {u});
      users := BumpUsers(users, {u});
      error := None;
    }

    method SetRolePermissions(role: RoleId, codes: Codes) returns (error: Option<Error>)
      modifies this`roles, this`users
      ensures Tables() == OrElse(SetPermissions(old(Tables()), role, codes), old(Tables()))
      ensures error.None? <==> SetPermissions(old(Tables()), role, codes).Ok?
      ensures error.None? <==> role in old(roles) && codes <= permissions
      ensures error == Some(PermissionNotFound) <==> role in old(roles) && !(codes <= permissions)
      ensures error.None? ==>
                && CodesReplaced(old(roles), roles, role, codes)
                && VersionsMoved(old(users), users, set u | u in users && (u, role) in links)
      ensures error.Some? ==> roles == old(roles) && users == old(users)
      ensures old(IsFresh()) ==> IsFresh()
    {
      if IsFresh() {
        TransactionsKeepFresh(Snapshot(), role, codes, 0, {});
      }
      if role !in roles {
        return Some(RoleNotFound);
      }
      if !(codes <= permissions) {
        return Some(PermissionNotFound);
      }
      roles := roles[role := roles[role].(codes := codes)];
      var affected := set u | u in users && (u, role) in links;
      assert affected == UsersOf(old(Tables()), role);
      users := BumpUsers(users, affected);
      error := None;
    }

    method DeleteRole(role: RoleId) returns (error: Option<Error>)
      modifies this`roles
      ensures Tables() == OrElse(Delete(old(Tables()), role), old(Tables()))
      ensures error.None? <==> Delete(old(Tables()), role).Ok?
      ensures error.None? <==>
                role in old(roles) && !old(roles)[role].isSystem && forall u: UserId :: (u, role) !in links
      ensures roles == if error.None? then old(roles) - {role} else old(roles)
      ensures error == Some(SystemRoleProtected) <==> role in old(roles) && old(roles)[role].isSystem
      ensures error == Some(RoleNotFound) <==> role !in old(roles)
      ensures old(IsFresh()) ==> IsFresh()
    {
      if role !in roles {
        return Some(RoleNotFound);
      }
      if roles[role].isSystem {
        return Some(SystemRoleProtected);
      }
      if exists l :: l in links && l.1 == role {
        return Some(RoleInUse);
      }
      ghost var before := Tables();
      roles := roles - {role};
      forall u: UserId
        ensures Fresh(Tables(), u) == Fresh(before, u)
      {
        assert ActiveRoles(Tables(), u) == ActiveRoles(before, u);
      }
      error := None;
    }
  }
}
