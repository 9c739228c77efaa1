/** The User document: roles, the e-mail format check, the setters that
    normalise e-mail and mobile number, the password hashing hook, and the
    collection with its unique indexes (backend/models/User.js). Password
    hashing is a parameter: `hash` stands for bcrypt with its salt. */
module UserModel {
  import opened Common

  datatype Role = Applicant | VerificationOfficer | Admin

  function RoleName(r: Role): string {
    match r
    case Applicant => "applicant"
    case VerificationOfficer => "verification_officer"
    case Admin => "admin"
  }

  /** The role enumeration check applied when a role string is stored. */
  function ParseRole(s: string): (r: Option<Role>)
    ensures r.Some? <==> s in {"applicant", "verification_officer", "admin"}
    ensures r.Some? ==> RoleName(r.value) == s
  {
    if s == "applicant" then Some(Applicant)
    else if s == "verification_officer" then Some(VerificationOfficer)
    else if s == "admin" then Some(Admin)
    else None
  }

  lemma RoleNameRoundTrip(r: Role)
    ensures ParseRole(RoleName(r)) == Some(r)
  {
  }

  datatype User = User(
    mobile: Option<string>,
    name: string,
    email: string,
    password: string,
    role: Role,
    isVerified: bool,
    isActive: bool,
    lastLogin: Option<int>)

  // ---------------------------------------------------------------------
  // The e-mail format

  /** A character of the class [^\s@]. */
  predicate PlainChar(c: char) {
    !IsJsWhitespace(c) && c != '@'
  }

  predicate AllPlain(s: string) {
    forall i :: 0 <= i < |s| ==> PlainChar(s[i])
  }

  /** The pattern ^[^\s@]+@[^\s@]+\.[^\s@]+$ read literally: a non-empty run
      of plain characters, '@', a non-empty run, '.', a non-empty run. */
  ghost predicate MatchesEmailPattern(s: string) {
    exists i, j :: 0 < i && i + 1 < j && j + 1 < |s| && s[i] == '@' && s[j] == '.'
                   && AllPlain(s[..i]) && AllPlain(s[i + 1..j]) && AllPlain(s[j + 1..])
  }

  function IndexOf(s: string, c: char): (r: Option<nat>)
    ensures r.Some? ==> r.value < |s| && s[r.value] == c
    ensures r.Some? ==> forall i :: 0 <= i < r.value ==> s[i] != c
    ensures r.None? ==> forall i :: 0 <= i < |s| ==> s[i] != c
  {
    if s == [] then None
    else if s[0] == c then Some(0)
    else match IndexOf(s[1..], c)
         case None => None
         case Some(k) => Some(k + 1)
  }

  /** The validator as one scan: the local part ends at the first '@', and
      the rest is plain and has a dot that is neither its first nor its last
      character. */
  predicate IsValidEmail(s: string) {
    var at := IndexOf(s, '@');
    && at.Some? && at.value > 0
    && AllPlain(s[..at.value])
    && var domain := s[at.value + 1..];
       AllPlain(domain) && exists j :: 0 < j < |domain| - 1 && domain[j] == '.'
  }

  lemma AllPlainSlice(s: string, lo: int, hi: int)
    requires 0 <= lo <= hi <= |s| && AllPlain(s)
    ensures AllPlain(s[lo..hi])
  {
    forall k | 0 <= k < hi - lo ensures PlainChar(s[lo..hi][k]) {
      assert s[lo..hi][k] == s[lo + k];
    }
  }

  lemma AllPlainJoin(x: string, c: char, y: string)
    requires AllPlain(x) && PlainChar(c) && AllPlain(y)
    ensures AllPlain(x + [c] + y)
  {
    var z := x + [c] + y;
    forall k | 0 <= k < |z| ensures PlainChar(z[k]) {
      if k < |x| {
        assert z[k] == x[k];
      } else if k > |x| {
        assert z[k] == y[k - |x| - 1];
      }
    }
  }

  lemma ScanImpliesPattern(s: string)
    requires IsValidEmail(s)
    ensures MatchesEmailPattern(s)
  {
    var at := IndexOf(s, '@').value;
    var domain := s[at + 1..];
    var j :| 0 < j < |domain| - 1 && domain[j] == '.';
    var dot := at + 1 + j;
    assert s[dot] == '.';
    AllPlainSlice(domain, 0, j);
    AllPlainSlice(domain, j + 1, |domain|);
    assert s[at + 1..dot] == domain[..j];
    assert s[dot + 1..] == domain[j + 1..];
  }

  lemma PatternImpliesScan(s: string, i: int, j: int)
    requires 0 < i && i + 1 < j && j + 1 < |s| && s[i] == '@' && s[j] == '.'
    requires AllPlain(s[..i]) && AllPlain(s[i + 1..j]) && AllPlain(s[j + 1..])
    ensures IsValidEmail(s)
  {
    forall k | 0 <= k < i ensures s[k] != '@' {
      assert s[..i][k] == s[k];
    }
    assert IndexOf(s, '@') == Some(i);
    var domain := s[i + 1..];
    assert domain == s[i + 1..j] + [s[j]] + s[j + 1..];
    AllPlainJoin(s[i + 1..j], s[j], s[j + 1..]);
    assert domain[j - (i + 1)] == '.';
  }

  /** The scan accepts exactly the strings the pattern matches. */
  lemma EmailScanMatchesPattern(s: string)
    ensures IsValidEmail(s) <==> MatchesEmailPattern(s)
  {
    if IsValidEmail(s) {
      ScanImpliesPattern(s);
    }
    if MatchesEmailPattern(s) {
      var i, j :| 0 < i && i + 1 < j && j + 1 < |s| && s[i] == '@' && s[j] == '.'
                  && AllPlain(s[..i]) && AllPlain(s[i + 1..j]) && AllPlain(s[j + 1..]);
      PatternImpliesScan(s, i, j);
    }
  }

  /** Addresses the validator accepts and refuses. */
  lemma EmailExamples()
    ensures IsValidEmail("a@b.c")
    ensures !IsValidEmail("a@b")
    ensures !IsValidEmail("@b.c")
    ensures !IsValidEmail("a@.c")
    ensures !IsValidEmail("a@b.")
    ensures !IsValidEmail("a@b@c.d")
  {
    ValidExample();
    NoDotExample();
    assert IndexOf("@b.c", '@') == Some(0);
    EdgeDotExamples();
    TwoAtExample();
  }

  lemma ValidExample()
    ensures IsValidEmail("a@b.c")
  {
    assert IndexOf("a@b.c", '@') == Some(1);
    var domain := "a@b.c"[2..];
    assert domain == "b.c" && domain[1] == '.';
    assert AllPlain("a@b.c"[..1]);
    assert AllPlain(domain);
  }

  lemma NoDotExample()
    ensures !IsValidEmail("a@b")
  {
    assert IndexOf("a@b", '@') == Some(1);
    assert "a@b"[2..] == "b";
  }

  lemma EdgeDotExamples()
    ensures !IsValidEmail("a@.c") && !IsValidEmail("a@b.")
  {
    assert IndexOf("a@.c", '@') == Some(1);
    assert "a@.c"[2..] == ".c";
    assert IndexOf("a@b.", '@') == Some(1);
    assert "a@b."[2..] == "b.";
  }

  lemma TwoAtExample()
    ensures !IsValidEmail("a@b@c.d")
  {
    assert IndexOf("a@b@c.d", '@') == Some(1);
    var domain := "a@b@c.d"[2..];
    assert domain == "b@c.d" && !PlainChar(domain[1]);
  }

  /** The `lowercase` and `trim` setters of the e-mail path. */
  function NormaliseEmail(s: string): string {
    Trim(Lower(s))
  }

  // ---------------------------------------------------------------------
  // Saving

  /** The document validators: `name` required, the e-mail format, and a
      newly set password of at least six characters (the minimum length is
      checked on the plaintext, before the hashing hook replaces it). */
  predicate UserSchemaValid(u: User, passwordModified: bool) {
    && u.name != ""
    && IsValidEmail(u.email)
    && (passwordModified ==> |u.password| >= 6)
  }

  /** The pre-save hook: the password is hashed only when it was modified. */
  function PreSave(u: User, passwordModified: bool, hash: string -> string): (s: User)
    ensures s.password == (if passwordModified then hash(u.password) else u.password)
    ensures s == u.(password := s.password)
  {
    if passwordModified then u.(password := hash(u.password)) else u
  }

  /** The unique index on e-mail and the sparse unique index on mobile: no
      other document holds the same e-mail, nor the same mobile number when
      both have one. */
  predicate NoIndexClash(users: map<Id, User>, id: Id, u: User) {
    forall other :: other in users && other != id ==>
      users[other].email != u.email
      && (u.mobile.Some? && users[other].mobile.Some? ==> users[other].mobile != u.mobile)
  }

  /** What `save()` accepts: the validators and the unique indexes. */
  predicate Saveable(users: map<Id, User>, id: Id, u: User, passwordModified: bool) {
    UserSchemaValid(u, passwordModified) && NoIndexClash(users, id, u)
  }

  const EmailAlreadyRegistered := Failure(BadRequest, "Email already registered")

  /** Stands for the hashing hook on a save that does not modify the
      password, where the hook does not run. */
  function Unhashed(p: string): string { p }

  /** The ids in insertion order, each once, naming exactly the stored
      users. */
  ghost predicate OrderMatches(users: map<Id, User>, order: seq<Id>) {
    && (forall i, j :: 0 <= i < j < |order| ==> order[i] != order[j])
    && (forall id :: id in users <==> id in order)
  }

  /** The unique index on e-mail and the sparse unique index on mobile. */
  ghost predicate IndexesHold(users: map<Id, User>) {
    && (forall a, b :: a in users && b in users && a != b ==> users[a].email != users[b].email)
    && (forall a, b :: a in users && b in users && a != b && users[a].mobile.Some? && users[b].mobile.Some?
                       ==> users[a].mobile != users[b].mobile)
  }

  /** The stored users: ids in insertion order, both unique indexes, and
      every document passing the validators. */
  ghost predicate ValidUsers(users: map<Id, User>, order: seq<Id>) {
    && OrderMatches(users, order)
    && IndexesHold(users)
    && (forall id :: id in users ==> users[id].name != "" && IsValidEmail(users[id].email))
  }

  /** A stored document saved again with its name, e-mail and mobile
      unchanged (and its password not modified) passes validation. */
  lemma ResaveAccepted(users: map<Id, User>, order: seq<Id>, id: Id, u: User)
    requires ValidUsers(users, order) && id in users
    requires u.name == users[id].name && u.email == users[id].email && u.mobile == users[id].mobile
    ensures Saveable(users, id, u, false)
  {
  }

  lemma SaveKeepsOrder(users: map<Id, User>, order: seq<Id>, id: Id, saved: User)
    requires OrderMatches(users, order)
    ensures OrderMatches(users[id := saved], if id in users then order else order + [id])
  {
    if id !in users {
      var order' := order + [id];
      forall i, j | 0 <= i < j < |order'| ensures order'[i] != order'[j] {
        if j == |order| {
          assert order'[i] == order[i] && order[i] in users;
        }
      }
    }
  }

  lemma SaveKeepsIndexes(users: map<Id, User>, id: Id, saved: User)
    requires IndexesHold(users) && NoIndexClash(users, id, saved)
    ensures IndexesHold(users[id := saved])
  {
  }

  /** A save that validation and the indexes accept keeps the stored users
      valid. */
  lemma SaveKeepsValid(users: map<Id, User>, order: seq<Id>, id: Id, u: User,
                       passwordModified: bool, hash: string -> string)
    requires ValidUsers(users, order) && Saveable(users, id, u, passwordModified)
    ensures ValidUsers(users[id := PreSave(u, passwordModified, hash)],
                       if id in users then order else order + [id])
  {
    var saved := PreSave(u, passwordModified, hash);
    assert saved.email == u.email && saved.mobile == u.mobile && saved.name == u.name;
    SaveKeepsOrder(users, order, id, saved);
    SaveKeepsIndexes(users, id, saved);
  }

  class UserCollection {
    var users: map<Id, User>
    var order: seq<Id>

    ghost predicate Valid()
      reads this
    {
      ValidUsers(users, order)
    }

    constructor ()
      ensures Valid() && users == map[] && order == []
    {
      users := map[];
      order := [];
    }

    /** `save()` (and `create`, which saves a new document). */
    method Save(id: Id, u: User, passwordModified: bool, hash: string -> string) returns (ok: bool)
      requires Valid()
      modifies this
      ensures Valid()
      ensures ok == Saveable(old(users), id, u, passwordModified)
      ensures ok ==> users == old(users)[id := PreSave(u, passwordModified, hash)]
                     && order == (if id in old(users) then old(order) else old(order) + [id])
      ensures !ok ==> users == old(users) && order == old(order)
    {
      if !Saveable(users, id, u, passwordModified) {
        return false;
      }
      SaveKeepsValid(users, order, id, u, passwordModified, hash);
      if id !in users {
        order := order + [id];
      }
      users := users[id := PreSave(u, passwordModified, hash)];
      ok := true;
    }
  }

  /** `findOne({ email })`: the first document in insertion order with that
      e-mail. */
  function FindByEmail(users: map<Id, User>, order: seq<Id>, email: string): (r: Option<Id>)
    requires forall id :: id in order ==> id in users
    ensures r.Some? ==> r.value in users && users[r.value].email == email
    ensures r.None? ==> forall i :: 0 <= i < |order| ==> users[order[i]].email != email
  {
    if order == [] then None
    else if users[order[0]].email == email then Some(order[0])
    else
      var r := FindByEmail(users, order[1..], email);
      assert r.None? ==> forall i :: 1 <= i < |order| ==> order[1..][i - 1] == order[i];
      r
  }

  /** `User.findOne({ email: v })` as Mongoose runs it: the filter value is
      cast through the path's `lowercase` and `trim` setters, as a value
      being stored is, so a match holds the normalised `v`. */
  function FindUserByEmail(users: map<Id, User>, order: seq<Id>, v: string): (r: Option<Id>)
    requires forall id :: id in order ==> id in users
    ensures r.Some? ==> r.value in users && users[r.value].email == NormaliseEmail(v)
    ensures r.None? ==> forall i :: 0 <= i < |order| ==> users[order[i]].email != NormaliseEmail(v)
  {
    FindByEmail(users, order, NormaliseEmail(v))
  }

  /** In a valid collection the lookup finds a document exactly when one
      holds the e-mail, and then it finds that one. */
  lemma FindByEmailExact(users: map<Id, User>, order: seq<Id>, email: string, id: Id)
    requires forall x :: x in users <==> x in order
    requires forall a, b :: a in users && b in users && a != b ==> users[a].email != users[b].email
    ensures id in users && users[id].email == email ==> FindByEmail(users, order, email) == Some(id)
    ensures FindByEmail(users, order, email).None? ==> forall x :: x in users ==> users[x].email != email
  {
    var r := FindByEmail(users, order, email);
    if id in users && users[id].email == email {
      var i :| 0 <= i < |order| && order[i] == id;
    }
    if r.None? {
      forall x | x in users ensures users[x].email != email {
        var i :| 0 <= i < |order| && order[i] == x;
      }
    }
  }
}
