/** The administrator's handlers (backend/controllers/adminController.js):
    the dashboard counts, configuration update and listing, user creation
    and the role and status changes. Each write here is followed by an
    audit-trail entry with a null application id (and, for the user
    handlers, an action outside the schema's list), which the trail refuses;
    the handler then answers 500 although its change has been stored. */
module AdminController {
  import opened Common
  import opened ApplicationModel
  import opened ConfigModel
  import opened AuditTrailModel
  import opened UserModel

  const KeyAndValueRequired := Failure(BadRequest, "Key and value required")
  const ConfigUpdateFailed := Failure(InternalError, "Failed to update configuration")
  const CreateUserFieldsRequired := Failure(BadRequest, "Email, password, name, and role are required")
  const CreateUserInvalidRole :=
    Failure(BadRequest, "Invalid role. Only applicant and verification_officer can be created.")
  const CreateUserFailed := Failure(InternalError, "Failed to create user")
  const UserNotFound := Failure(NotFound, "User not found")
  const CannotChangeAdminRole := Failure(Forbidden, "Cannot change admin role")
  const CannotDeactivateAdmin := Failure(Forbidden, "Cannot deactivate admin user")
  const ManageUsersFailed := Failure(InternalError, "Failed to manage users")

  // ---------------------------------------------------------------------
  // Dashboard

  function Count(apps: map<Id, Application>, ids: seq<Id>, p: Application -> bool): (c: nat)
    requires AllIn(apps, ids)
    ensures c <= |ids|
  {
    if ids == [] then 0 else (if p(apps[ids[0]]) then 1 else 0) + Count(apps, ids[1..], p)
  }

  /** Counting two conditions that never hold together is counting their
      disjunction `r`. */
  lemma {:induction false} CountDisjoint(apps: map<Id, Application>, ids: seq<Id>,
                                          p: Application -> bool, q: Application -> bool, r: Application -> bool)
    requires AllIn(apps, ids)
    requires forall a :: !(p(a) && q(a))
    requires forall a :: r(a) == (p(a) || q(a))
    ensures Count(apps, ids, p) + Count(apps, ids, q) == Count(apps, ids, r)
  {
    if ids != [] {
      CountDisjoint(apps, ids[1..], p, q, r);
    }
  }

  /** The ids of the listed applications that satisfy `p`: what
      `countDocuments(filter)` counts. */
  ghost function Matching(apps: map<Id, Application>, ids: seq<Id>, p: Application -> bool): set<Id>
    requires AllIn(apps, ids)
  {
    set id | id in ids && p(apps[id])
  }

  /** Over a list without repetitions, Count is the number of matching
      documents. */
  lemma {:induction false} CountIsMatchingSize(apps: map<Id, Application>, ids: seq<Id>, p: Application -> bool)
    requires AllIn(apps, ids)
    ensures Distinct(ids) ==> Count(apps, ids, p) == |Matching(apps, ids, p)|
  {
    if ids != [] && Distinct(ids) {
      var rest := ids[1..];
      assert AllIn(apps, rest) && Distinct(rest) by {
        forall i, j | 0 <= i < j < |rest| ensures rest[i] != rest[j] {
          assert rest[i] == ids[i + 1] && rest[j] == ids[j + 1];
        }
      }
      CountIsMatchingSize(apps, rest, p);
      assert ids[0] !in rest by {
        forall i | 0 <= i < |rest| ensures rest[i] != ids[0] {
          assert rest[i] == ids[i + 1];
        }
      }
      assert forall id :: id in ids <==> id == ids[0] || id in rest;
      if p(apps[ids[0]]) {
        assert Matching(apps, ids, p) == {ids[0]} + Matching(apps, rest, p);
      } else {
        assert Matching(apps, ids, p) == Matching(apps, rest, p);
      }
    }
  }

  predicate IsApproved(a: Application) { a.status == Approved }
  predicate IsRejected(a: Application) { a.status == Rejected }
  predicate IsDecided(a: Application) { IsApproved(a) || IsRejected(a) }

  /** `status: { $in: ['submitted', 'under_review', 'pending_verification'] }`. */
  predicate IsAwaitingDecision(a: Application) {
    a.status == Submitted || a.status == UnderReview || a.status == PendingVerification
  }

  predicate IsFlaggedFraud(a: Application) { a.verification.isFraud }
  predicate InAuditQueue(a: Application) { a.auditStatus == Selected }

  datatype DashboardStats = DashboardStats(
    totalApplications: nat, approved: nat, rejected: nat, pending: nat, fraud: nat, auditQueue: nat)

  /** The six counts of the dashboard, each the number of applications its
      filter matches. Approved, rejected and pending are disjoint, so they
      never add up to more than the total. */
  function Dashboard(apps: map<Id, Application>, order: seq<Id>): (d: DashboardStats)
    requires AllIn(apps, order)
    ensures d.totalApplications == |order|
    ensures Distinct(order) ==>
              && d.approved == |Matching(apps, order, IsApproved)|
              && d.rejected == |Matching(apps, order, IsRejected)|
              && d.pending == |Matching(apps, order, IsAwaitingDecision)|
              && d.fraud == |Matching(apps, order, IsFlaggedFraud)|
              && d.auditQueue == |Matching(apps, order, InAuditQueue)|
    ensures d.approved + d.rejected + d.pending <= d.totalApplications
    ensures d.fraud <= d.totalApplications && d.auditQueue <= d.totalApplications
  {
    CountDisjoint(apps, order, IsApproved, IsRejected, IsDecided);
    CountDisjoint(apps, order, IsDecided, IsAwaitingDecision, a => IsDecided(a) || IsAwaitingDecision(a));
    CountIsMatchingSize(apps, order, IsApproved);
    CountIsMatchingSize(apps, order, IsRejected);
    CountIsMatchingSize(apps, order, IsAwaitingDecision);
    CountIsMatchingSize(apps, order, IsFlaggedFraud);
    CountIsMatchingSize(apps, order, InAuditQueue);
    DashboardStats(
      |order|,
      Count(apps, order, IsApproved),
      Count(apps, order, IsRejected),
      Count(apps, order, IsAwaitingDecision),
      Count(apps, order, IsFlaggedFraud),
      Count(apps, order, InAuditQueue))
  }

  // ---------------------------------------------------------------------
  // Configuration

  /** `!key || value === undefined`: a missing or empty key, or no value at
      all (a JSON null is a value). */
  predicate ConfigRequestIncomplete(key: Option<string>, value: Option<Value>) {
    key.None? || key.value == "" || value.None?
  }

  method UpdateConfig(store: ConfigCollection, trail: AuditTrailCollection, admin: Id,
                      key: Option<string>, value: Option<Value>, ip: string, now: int)
    returns (r: Result<ConfigDoc>)
    requires store.Valid()
    modifies store, trail
    ensures store.Valid()
    ensures ConfigRequestIncomplete(key, value) ==>
              r == Err(KeyAndValueRequired) && unchanged(store, trail)
    ensures !ConfigRequestIncomplete(key, value) ==>
              && store.AsMap() == old(store.AsMap())[key.value := value.value]
              && trail.entries == old(trail.entries)
              && r == Err(ConfigUpdateFailed)
  {
    if key.None? || key.value == "" || value.None? {
      return Err(KeyAndValueRequired);
    }
    var doc := ConfigDoc(key.value, value.value);
    store.Upsert(doc.key, doc.value);
    var ok := trail.Append(Entry(None, admin, "modified", ConfigDetails(doc.key, doc.value), ip, now));
    r := if ok then Ok(doc) else Err(ConfigUpdateFailed);
  }

  /** getConfigs: one key-to-value entry per stored document. */
  method GetConfigs(store: ConfigCollection) returns (configs: map<string, Value>)
    requires store.Valid()
    ensures configs == store.AsMap()
    ensures |configs| == |store.docs|
    ensures forall i :: 0 <= i < |store.docs| ==>
              store.docs[i].key in configs && configs[store.docs[i].key] == store.docs[i].value
  {
    configs := map[];
    for i := 0 to |store.docs|
      invariant configs == ToMap(store.docs[..i])
    {
      assert store.docs[..i + 1] == store.docs[..i] + [store.docs[i]];
      ToMapAppend(store.docs[..i], store.docs[i]);
      configs := configs[store.docs[i].key := store.docs[i].value];
    }
    assert store.docs[..|store.docs|] == store.docs;
    ToMapSize(store.docs);
    forall i | 0 <= i < |store.docs|
      ensures store.docs[i].key in configs && configs[store.docs[i].key] == store.docs[i].value
    {
      ToMapAt(store.docs, i);
    }
  }

  // ---------------------------------------------------------------------
  // Users

  /** The two guards of createUser, in order. */
  function CreateUserGuard(email: Option<string>, password: Option<string>, name: Option<string>,
                           role: Option<string>): (f: Option<Failure>)
    ensures f == Some(CreateUserFieldsRequired) <==> !(Given(email) && Given(password) && Given(name) && Given(role))
    ensures f == Some(CreateUserInvalidRole) <==>
              Given(email) && Given(password) && Given(name) && Given(role)
              && role.value != "applicant" && role.value != "verification_officer"
    ensures f.None? ==> ParseRole(role.value).Some? && ParseRole(role.value).value != Admin
  {
    if !(Given(email) && Given(password) && Given(name) && Given(role)) then Some(CreateUserFieldsRequired)
    else if role.value != "applicant" && role.value != "verification_officer" then Some(CreateUserInvalidRole)
    else None
  }

  /** The document createUser submits: the lowercased e-mail (which the
      setters then trim), verified and active. */
  function NewStaffUser(email: string, password: string, name: string, role: Role): (u: User)
    ensures u.isVerified && u.isActive && u.role == role && u.mobile.None?
    ensures u.email == NormaliseEmail(Lower(email))
  {
    User(None, name, NormaliseEmail(Lower(email)), password, role, true, true, None)
  }

  method CreateUser(users: UserCollection, trail: AuditTrailCollection, admin: Id, newId: Id,
                    email: Option<string>, password: Option<string>, name: Option<string>,
                    role: Option<string>, hash: string -> string, ip: string, now: int)
    returns (r: Result<Id>)
    requires users.Valid() && newId !in users.users
    modifies users, trail
    ensures users.Valid()
    ensures trail.entries == old(trail.entries)
    ensures var refusal := CreateUserGuard(email, password, name, role);
            if refusal.Some? then
              r == Err(refusal.value) && users.users == old(users.users) && users.order == old(users.order)
            else if FindUserByEmail(old(users.users), old(users.order), Lower(email.value)).Some? then
              r == Err(EmailAlreadyRegistered) && users.users == old(users.users) && users.order == old(users.order)
            else
              var u := NewStaffUser(email.value, password.value, name.value, ParseRole(role.value).value);
              && r == Err(CreateUserFailed)
              && users.users == (if Saveable(old(users.users), newId, u, true)
                                 then old(users.users)[newId := PreSave(u, true, hash)]
                                 else old(users.users))
  {
    var refusal := CreateUserGuard(email, password, name, role);
    if refusal.Some? {
      return Err(refusal.value);
    }
    if FindUserByEmail(users.users, users.order, Lower(email.value)).Some? {
      return Err(EmailAlreadyRegistered);
    }
    var u := NewStaffUser(email.value, password.value, name.value, ParseRole(role.value).value);
    r := StoreStaffUser(users, trail, admin, newId, u, role.value, hash, ip, now);
  }

  /** The creation step of createUser, after its checks: save the document,
      then record it in the trail (which refuses the entry). */
  method StoreStaffUser(users: UserCollection, trail: AuditTrailCollection, admin: Id, newId: Id,
                        u: User, roleName: string, hash: string -> string, ip: string, now: int)
    returns (r: Result<Id>)
    requires users.Valid() && newId !in users.users
    modifies users, trail
    ensures users.Valid()
    ensures trail.entries == old(trail.entries)
    ensures r == Err(CreateUserFailed)
    ensures users.users == (if Saveable(old(users.users), newId, u, true)
                            then old(users.users)[newId := PreSave(u, true, hash)]
                            else old(users.users))
  {
    var saved := users.Save(newId, u, true, hash);
    if !saved {
      return Err(CreateUserFailed);
    }
    var ok := trail.Append(Entry(None, admin, "user_created", CreatedUserDetails(newId, roleName, u.email), ip, now));
    r := if ok then Ok(newId) else Err(CreateUserFailed);
  }

  /** createUser can never make an administrator. */
  lemma CreateUserNeverAdmin(email: Option<string>, password: Option<string>, name: Option<string>, role: Option<string>)
    ensures CreateUserGuard(email, password, name, role).None? ==>
              NewStaffUser(email.value, password.value, name.value, ParseRole(role.value).value).role != Admin
    ensures role == Some("admin") && Given(email) && Given(password) && Given(name) ==>
              CreateUserGuard(email, password, name, role) == Some(CreateUserInvalidRole)
  {
  }

  /** What manageUsers answers for an action other than the two updates:
      the user listing, whose contents are not modelled. */
  datatype ManageReply = UserListing

  method ManageUsers(users: UserCollection, trail: AuditTrailCollection, admin: Id, action: string,
                     userId: Id, role: string, isActive: bool, ip: string, now: int)
    returns (r: Result<ManageReply>)
    requires users.Valid()
    modifies users, trail
    ensures users.Valid()
    ensures trail.entries == old(trail.entries)
    ensures action != "update_role" && action != "update_status" ==> r == Ok(UserListing) && unchanged(users)
    ensures (action == "update_role" || action == "update_status") && userId !in old(users.users) ==>
              r == Err(UserNotFound) && unchanged(users)
    ensures (action == "update_role" || action == "update_status") && userId in old(users.users)
            && old(users.users)[userId].role == Admin ==>
              r == Err(if action == "update_role" then CannotChangeAdminRole else CannotDeactivateAdmin)
              && unchanged(users)
    ensures action == "update_role" && userId in old(users.users) && old(users.users)[userId].role != Admin ==>
              && r == Err(ManageUsersFailed)
              && (ParseRole(role).None? ==> unchanged(users))
              && (ParseRole(role).Some? ==>
                    users.users == old(users.users)[userId := old(users.users)[userId].(role := ParseRole(role).value)])
    ensures action == "update_status" && userId in old(users.users) && old(users.users)[userId].role != Admin ==>
              && r == Err(ManageUsersFailed)
              && users.users == old(users.users)[userId := old(users.users)[userId].(isActive := isActive)]
  {
    if action != "update_role" && action != "update_status" {
      return Ok(UserListing);
    }
    if userId !in users.users {
      return Err(UserNotFound);
    }
    var user := users.users[userId];
    if user.role == Admin {
      return Err(if action == "update_role" then CannotChangeAdminRole else CannotDeactivateAdmin);
    }
    var entry: Entry;
    if action == "update_role" {
      var newRole := ParseRole(role);
      if newRole.None? {
        return Err(ManageUsersFailed);
      }
      user := user.(role := newRole.value);
      entry := Entry(None, admin, "user_role_updated", RoleDetails(userId, role), ip, now);
    } else {
      user := user.(isActive := isActive);
      entry := Entry(None, admin, "user_status_updated", ActiveDetails(userId, isActive), ip, now);
    }
    var saved := users.Save(userId, user, false, Unhashed);
    if !saved {
      return Err(ManageUsersFailed);
    }
    var ok := trail.Append(entry);
    r := if ok then Ok(UserListing) else Err(ManageUsersFailed);
  }
}
