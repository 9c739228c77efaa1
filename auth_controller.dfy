/** Sign-up, login and profile update (backend/controllers/authController.js).
    Token issue is not modelled; the password check compares `hash` of the
    candidate with the stored hash. */
module AuthController {
  import opened Common
  import opened UserModel

  const SignupFieldsRequired := Failure(BadRequest, "Email, password, and name are required")
  const PasswordTooShort := Failure(BadRequest, "Password must be at least 6 characters long")
  const SignupFailed := Failure(InternalError, "Failed to signup")
  const LoginFieldsRequired := Failure(BadRequest, "Email and password are required")
  const InvalidCredentials := Failure(Unauthorized, "Invalid email or password")
  const AccountDeactivated := Failure(Forbidden, "Account is deactivated. Please contact administrator.")
  const ProfileUpdateFailed := Failure(InternalError, "Failed to update profile")
  const OtpDisabled := Failure(BadRequest, "OTP system is not enabled. Please use email/password login.")

  // ---------------------------------------------------------------------
  // Signup

  /** The guards of signup in order; `registered` is whether a user with
      the lowercased e-mail exists. */
  function SignupGuard(email: Option<string>, password: Option<string>, name: Option<string>,
                       registered: bool): (f: Option<Failure>)
    ensures f == Some(SignupFieldsRequired) <==> !(Given(email) && Given(password) && Given(name))
    ensures f == Some(PasswordTooShort) <==>
              Given(email) && Given(password) && Given(name) && |password.value| < 6
    ensures f == Some(EmailAlreadyRegistered) <==>
              Given(email) && Given(password) && Given(name) && |password.value| >= 6 && registered
    ensures f.None? <==> Given(email) && Given(password) && Given(name) && |password.value| >= 6 && !registered
  {
    if !(Given(email) && Given(password) && Given(name)) then Some(SignupFieldsRequired)
    else if |password.value| < 6 then Some(PasswordTooShort)
    else if registered then Some(EmailAlreadyRegistered)
    else None
  }

  /** The document signup submits: an applicant, verified, with the
      lowercased e-mail (which the setters then trim). */
  function NewApplicant(email: string, password: string, name: string): (u: User)
    ensures u.role == Applicant && u.isVerified && u.isActive && u.mobile.None? && u.lastLogin.None?
    ensures u.email == NormaliseEmail(Lower(email)) && u.name == name && u.password == password
  {
    User(None, name, NormaliseEmail(Lower(email)), password, Applicant, true, true, None)
  }

  method Signup(users: UserCollection, newId: Id, email: Option<string>, password: Option<string>,
                name: Option<string>, hash: string -> string)
    returns (r: Result<Id>)
    requires users.Valid() && newId !in users.users
    modifies users
    ensures users.Valid()
    ensures var registered := Given(email) && FindUserByEmail(old(users.users), old(users.order), Lower(email.value)).Some?;
            var refusal := SignupGuard(email, password, name, registered);
            if refusal.Some? then
              r == Err(refusal.value) && users.users == old(users.users) && users.order == old(users.order)
            else
              var u := NewApplicant(email.value, password.value, name.value);
              if Saveable(old(users.users), newId, u, true) then
                && r == Ok(newId)
                && users.users == old(users.users)[newId := PreSave(u, true, hash)]
                && users.order == old(users.order) + [newId]
              else
                r == Err(SignupFailed) && users.users == old(users.users) && users.order == old(users.order)
  {
    if !(Given(email) && Given(password) && Given(name)) {
      return Err(SignupFieldsRequired);
    }
    if |password.value| < 6 {
      return Err(PasswordTooShort);
    }
    if FindUserByEmail(users.users, users.order, Lower(email.value)).Some? {
      return Err(EmailAlreadyRegistered);
    }
    var u := NewApplicant(email.value, password.value, name.value);
    var saved := users.Save(newId, u, true, hash);
    r := if saved then Ok(newId) else Err(SignupFailed);
  }

  /** The guards are checked in order: a missing field is reported before a
      short password, and a short password before a taken e-mail. */
  lemma SignupGuardOrder(email: string, password: string)
    requires email != "" && |password| < 6
    ensures SignupGuard(Some(email), Some(password), None, true) == Some(SignupFieldsRequired)
    ensures password != "" ==> SignupGuard(Some(email), Some(password), Some("n"), true) == Some(PasswordTooShort)
  {
  }

  /** The duplicate check casts its key through the e-mail setters: an
      address with surrounding blanks and capitals is found as the stored,
      normalised address, and signup refuses it as registered. */
  lemma PaddedEmailIsLookedUp(u: User)
    requires u.email == "a@b.c"
    ensures NormaliseEmail(Lower(" A@b.c")) == "a@b.c"
    ensures FindUserByEmail(map["u1" := u], ["u1"], Lower(" A@b.c")) == Some("u1")
    ensures SignupGuard(Some(" A@b.c"), Some("secret"), Some("n"), true) == Some(EmailAlreadyRegistered)
  {
    PaddedKey();
    PaddedSignupRefused();
  }

  lemma PaddedSignupRefused()
    ensures SignupGuard(Some(" A@b.c"), Some("secret"), Some("n"), true) == Some(EmailAlreadyRegistered)
  {
  }

  lemma PaddedKey()
    ensures NormaliseEmail(Lower(" A@b.c")) == "a@b.c"
  {
    var padded := " A@b.c";
    var key := Lower(padded);
    assert key == " a@b.c" by {
      forall i | 0 <= i < |padded| ensures key[i] == " a@b.c"[i] {
      }
    }
    LowerIdempotent(padded);
    assert Lower(key) == " a@b.c";
    PaddedTrim();
  }

  lemma PaddedTrim()
    ensures Trim(" a@b.c") == "a@b.c"
  {
    assert !IsJsWhitespace('a') && !IsJsWhitespace('c');
    assert TrimStart(" a@b.c") == TrimStart(" a@b.c"[1..]) == "a@b.c";
    assert TrimEnd("a@b.c") == "a@b.c";
  }

  // ---------------------------------------------------------------------
  // Login

  /** The login checks in order, given the user found for the lowercased
      e-mail. */
  function LoginGuard(email: Option<string>, password: Option<string>, found: Option<User>,
                      hash: string -> string): (f: Option<Failure>)
    ensures f == Some(LoginFieldsRequired) <==> !(Given(email) && Given(password))
    ensures f == Some(AccountDeactivated) <==>
              Given(email) && Given(password) && found.Some? && !found.value.isActive
    ensures f == Some(InvalidCredentials) <==>
              Given(email) && Given(password)
              && (found.None? || (found.value.isActive && hash(password.value) != found.value.password))
    ensures f.None? <==>
              Given(email) && Given(password) && found.Some? && found.value.isActive
              && hash(password.value) == found.value.password
  {
    if !(Given(email) && Given(password)) then Some(LoginFieldsRequired)
    else if found.None? then Some(InvalidCredentials)
    else if !found.value.isActive then Some(AccountDeactivated)
    else if hash(password.value) != found.value.password then Some(InvalidCredentials)
    else None
  }

  /** An unknown e-mail and a wrong password get the same answer, and a
      deactivated account is reported whatever the password. */
  lemma LoginAnswers(email: string, password: string, u: User, hash: string -> string)
    requires email != "" && password != ""
    ensures u.isActive && hash(password) != u.password ==>
              LoginGuard(Some(email), Some(password), Some(u), hash)
              == LoginGuard(Some(email), Some(password), None, hash) == Some(InvalidCredentials)
    ensures !u.isActive ==> LoginGuard(Some(email), Some(password), Some(u), hash) == Some(AccountDeactivated)
  {
  }

  /** A user created by signup logs in with the same password under the
      submitted e-mail, or any spelling of it with other capitals or
      surrounding blanks. */
  lemma SignupThenLogin(users: map<Id, User>, order: seq<Id>, newId: Id, email: string, typed: string,
                        password: string, name: string, hash: string -> string)
    requires forall x :: x in users <==> x in order
    requires forall a, b :: a in users && b in users && a != b ==> users[a].email != users[b].email
    requires newId !in users && Saveable(users, newId, NewApplicant(email, password, name), true)
    requires typed != "" && NormaliseEmail(Lower(typed)) == NormaliseEmail(Lower(email))
    ensures var stored := PreSave(NewApplicant(email, password, name), true, hash);
            && LoginTarget(users[newId := stored], order + [newId], Some(typed)) == Some(newId)
            && LoginGuard(Some(typed), Some(password), Some(stored), hash).None?
  {
    LowerIdempotent(email);
    LowerIdempotent(typed);
    var u := NewApplicant(email, password, name);
    var stored := PreSave(u, true, hash);
    var key := NormaliseEmail(Lower(typed));
    assert stored.email == key;
    assert NoIndexClash(users, newId, u);
    InsertedIsFound(users, order, newId, stored, key);
    LoginGuardAccepts(Some(typed), Some(password), stored, hash);
  }

  /** A document holding an e-mail nobody else holds is found by it once it
      is added. */
  lemma InsertedIsFound(users: map<Id, User>, order: seq<Id>, id: Id, u: User, email: string)
    requires forall x :: x in users <==> x in order
    requires forall a, b :: a in users && b in users && a != b ==> users[a].email != users[b].email
    requires id !in users && u.email == email
    requires forall a :: a in users ==> users[a].email != email
    ensures FindByEmail(users[id := u], order + [id], email) == Some(id)
  {
    var users' := users[id := u];
    assert forall x :: x in users' <==> x in order + [id];
    FindByEmailExact(users', order + [id], email, id);
  }

  lemma LoginGuardAccepts(email: Option<string>, password: Option<string>, found: User, hash: string -> string)
    requires Given(email) && Given(password) && found.isActive && hash(password.value) == found.password
    ensures LoginGuard(email, password, Some(found), hash).None?
  {
  }

  /** The account login looks up: the one holding the submitted e-mail,
      lowercased and cast through the setters. */
  function LoginTarget(users: map<Id, User>, order: seq<Id>, email: Option<string>): (t: Option<Id>)
    requires forall id :: id in order ==> id in users
    ensures t.Some? ==> Given(email) && t.value in users && users[t.value].email == NormaliseEmail(Lower(email.value))
    ensures t.None? && Given(email) ==>
              forall i :: 0 <= i < |order| ==> users[order[i]].email != NormaliseEmail(Lower(email.value))
  {
    if Given(email) then FindUserByEmail(users, order, Lower(email.value)) else None
  }

  method Login(users: UserCollection, email: Option<string>, password: Option<string>,
               hash: string -> string, now: int)
    returns (r: Result<Id>)
    requires users.Valid()
    modifies users
    ensures users.Valid()
    ensures var target := LoginTarget(old(users.users), old(users.order), email);
            var refusal := LoginGuard(email, password, if target.Some? then Some(old(users.users)[target.value]) else None, hash);
            if refusal.Some? then
              r == Err(refusal.value) && users.users == old(users.users) && users.order == old(users.order)
            else
              && r == Ok(target.value)
              && users.users == old(users.users)[target.value := old(users.users)[target.value].(lastLogin := Some(now))]
              && users.order == old(users.order)
  {
    if !(Given(email) && Given(password)) {
      return Err(LoginFieldsRequired);
    }
    var target := FindUserByEmail(users.users, users.order, Lower(email.value));
    if target.None? {
      return Err(InvalidCredentials);
    }
    var id := target.value;
    var user := users.users[id];
    if !user.isActive {
      return Err(AccountDeactivated);
    }
    if hash(password.value) != user.password {
      return Err(InvalidCredentials);
    }
    user := user.(lastLogin := Some(now));
    ResaveAccepted(users.users, users.order, id, user);
    var _ := users.Save(id, user, false, Unhashed);
    r := Ok(id);
  }

  // ---------------------------------------------------------------------
  // Profile

  /** updateProfile's assignments: each field only when a non-empty value
      is supplied; the e-mail through its setters. */
  function ProfileUpdate(u: User, name: Option<string>, email: Option<string>): (v: User)
    ensures v.name == (if Given(name) then name.value else u.name)
    ensures v.email == (if Given(email) then NormaliseEmail(email.value) else u.email)
    ensures v == u.(name := v.name, email := v.email)
  {
    var v := if Given(name) then u.(name := name.value) else u;
    if Given(email) then v.(email := NormaliseEmail(email.value)) else v
  }

  method UpdateProfile(users: UserCollection, id: Id, name: Option<string>, email: Option<string>)
    returns (r: Result<User>)
    requires users.Valid()
    modifies users
    ensures users.Valid()
    ensures users.order == old(users.order)
    ensures id !in old(users.users) ==> r == Err(ProfileUpdateFailed) && users.users == old(users.users)
    ensures id in old(users.users) ==>
              var v := ProfileUpdate(old(users.users)[id], name, email);
              if Saveable(old(users.users), id, v, false) then
                r == Ok(v) && users.users == old(users.users)[id := v]
              else
                r == Err(ProfileUpdateFailed) && users.users == old(users.users)
  {
    if id !in users.users {
      return Err(ProfileUpdateFailed);
    }
    var user := users.users[id];
    if Given(name) {
      user := user.(name := name.value);
    }
    if Given(email) {
      user := user.(email := NormaliseEmail(email.value));
    }
    var saved := users.Save(id, user, false, Unhashed);
    r := if saved then Ok(user) else Err(ProfileUpdateFailed);
  }

  // ---------------------------------------------------------------------
  // OTP endpoints

  /** sendOTP and verifyOTP refuse every request. */
  function OtpEndpoint(mobile: Option<string>, otp: Option<string>): (f: Failure)
    ensures HttpStatus(f.kind) == 400
    ensures f == OtpDisabled
  {
    OtpDisabled
  }
}
