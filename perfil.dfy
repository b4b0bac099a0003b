/** The profile controller: reading the signed-in user's profile, updating
    name, email and phone through a chain of early returns, and changing the
    password. The user collection is a map from id to stored user. */
module Perfil {
  import opened Wrappers
  import opened JsText
  import opened EmailFormat
  import opened UserModel

  /** The fields a profile response exposes; the password is not among them. */
  datatype ProfileView = ProfileView(
    id: string, name: string, email: string, phone: string, role: string,
    emailVerified: bool, createdAt: int)

  /** The messages the controller answers with. `Invalid` is a failed
      update validation, naming the paths whose `required` validator failed. */
  datatype Msg =
    | UserNotFound | FieldsRequired | BadEmailFormat | EmailInUse
    | Invalid(nameMissing: bool, phoneMissing: bool) | ProfileUpdated
    | PasswordsRequired | PasswordTooShort | WrongPassword | PasswordChanged
    | ServerError

  /** A JSON reply `{ success, message, data }`. */
  datatype Reply = Reply(status: int, success: bool, message: Option<Msg>, data: Option<ProfileView>)

  function ViewOf(r: UserRecord): ProfileView {
    ProfileView(r.id, r.name, r.email, r.phone, r.role, r.emailVerified, r.createdAt)
  }

  function Fail(status: int, m: Msg): Reply {
    Reply(status, false, Some(m), None)
  }

  /** The response reveals nothing of the stored password. */
  lemma ViewHidesPassword(r: UserRecord, p: string)
    ensures ViewOf(r.(password := p)) == ViewOf(r)
  {
  }

  /** `getProfile`: 404 for an unknown id, otherwise the user's view. */
  function GetProfile(users: map<string, UserRecord>, userId: string): (r: Reply)
    ensures r.status == 200 <==> userId in users
    ensures r.status == 200 ==> r.success && r.data == Some(ViewOf(users[userId]))
    ensures r.status != 200 ==> r == Fail(404, UserNotFound)
  {
    if userId !in users then Fail(404, UserNotFound)
    else Reply(200, true, None, Some(ViewOf(users[userId])))
  }

  // ---------------------------------------------------------------------------
  // updateProfile

  /** `User.findOne({ email, _id: { $ne: userId } })` finds a user. */
  predicate EmailTaken(users: map<string, UserRecord>, userId: string, email: string) {
    exists id :: id in users && id != userId && users[id].email == email
  }

  /** The update validators of the `findByIdAndUpdate` call: `required`
      fails on a name or phone that trims to nothing; the messages are
      joined in the update's key order. */
  function UpdateValidation(name: string, phone: string): Option<Msg> {
    if Trim(name) == "" || Trim(phone) == "" then Some(Invalid(Trim(name) == "", Trim(phone) == ""))
    else None
  }

  /** The stored user after a successful update: name and phone trimmed,
      email lower-cased and trimmed, everything else kept. */
  function Updated(r: UserRecord, name: string, email: string, phone: string): UserRecord {
    r.(name := Trim(name), email := Trim(AsciiLower(email)), phone := Trim(phone))
  }

  /** The first of `updateProfile`'s checks that fails, with the status it
      answers: every field present, the raw email matches the pattern, no
      other user holds the lower-cased email, the trimmed name and phone are
      not empty, the user exists. `None` when every check passes. */
  function UpdateCheck(users: map<string, UserRecord>, userId: string,
                       name: Option<string>, email: Option<string>, phone: Option<string>): (c: Option<(int, Msg)>)
    ensures c.None? <==>
      Truthy(name) && Truthy(email) && Truthy(phone) && IsEmail(email.value)
      && !EmailTaken(users, userId, AsciiLower(email.value))
      && Trim(name.value) != "" && Trim(phone.value) != "" && userId in users
    ensures c.Some? ==> c.value.0 == 400 || (c.value == (404, UserNotFound) && userId !in users)
  {
    if !Truthy(name) || !Truthy(email) || !Truthy(phone) then Some((400, FieldsRequired))
    else if !IsEmail(email.value) then Some((400, BadEmailFormat))
    else if EmailTaken(users, userId, AsciiLower(email.value)) then Some((400, EmailInUse))
    else match UpdateValidation(name.value, phone.value)
      case Some(m) => Some((400, m))
      case None => if userId !in users then Some((404, UserNotFound)) else None
  }

  /** `updateProfile` for the user `userId`: the reply and the collection
      afterwards. A failed check is answered with its status and message
      and writes nothing. */
  function UpdateProfile(users: map<string, UserRecord>, userId: string,
                         name: Option<string>, email: Option<string>, phone: Option<string>): (out: (Reply, map<string, UserRecord>))
    ensures out.0.status == 200 <==> UpdateCheck(users, userId, name, email, phone).None?
    ensures out.0.status != 200 ==> out.1 == users && !out.0.success && out.0.data == None
  {
    match UpdateCheck(users, userId, name, email, phone)
    case Some(failure) => (Fail(failure.0, failure.1), users)
    case None =>
      var u := Updated(users[userId], name.value, email.value, phone.value);
      (Reply(200, true, Some(ProfileUpdated), Some(ViewOf(u))), users[userId := u])
  }

  /** A successful update writes the trimmed, lower-cased fields into the
      user's own record and nothing else, and answers with that record. */
  lemma UpdateWrites(users: map<string, UserRecord>, userId: string,
                     name: Option<string>, email: Option<string>, phone: Option<string>)
    requires UpdateProfile(users, userId, name, email, phone).0.status == 200
    ensures userId in users && name.Some? && email.Some? && phone.Some?
    ensures var u := Updated(users[userId], name.value, email.value, phone.value);
      UpdateProfile(users, userId, name, email, phone) == (Reply(200, true, Some(ProfileUpdated), Some(ViewOf(u))), users[userId := u])
  {
  }

  /** A missing field is answered before anything else is looked at,
      whatever the collection holds. */
  lemma UpdateRequiresFields(users: map<string, UserRecord>, userId: string,
                             name: Option<string>, email: Option<string>, phone: Option<string>)
    requires !Truthy(name) || !Truthy(email) || !Truthy(phone)
    ensures UpdateProfile(users, userId, name, email, phone) == (Fail(400, FieldsRequired), users)
  {
  }

  /** The pattern is applied to the raw input: an email with white space
      anywhere, even padding that trimming would remove, is refused. */
  lemma UpdateChecksRawEmail(users: map<string, UserRecord>, userId: string,
                             name: string, email: string, phone: string, i: int)
    requires name != "" && email != "" && phone != ""
    requires 0 <= i < |email| && IsSpace(email[i])
    ensures UpdateProfile(users, userId, Some(name), Some(email), Some(phone)) == (Fail(400, BadEmailFormat), users)
  {
    SpacedIsNotEmail(email, i);
    UpdateRefusesBadEmail(users, userId, name, email, phone);
  }

  /** An email the pattern rejects is refused and nothing is written. */
  lemma UpdateRefusesBadEmail(users: map<string, UserRecord>, userId: string,
                              name: string, email: string, phone: string)
    requires name != "" && email != "" && phone != "" && !IsEmail(email)
    ensures UpdateProfile(users, userId, Some(name), Some(email), Some(phone)) == (Fail(400, BadEmailFormat), users)
  {
    assert UpdateCheck(users, userId, Some(name), Some(email), Some(phone)) == Some((400, BadEmailFormat));
  }

  lemma SpacedIsNotEmail(e: string, i: int)
    requires 0 <= i < |e| && IsSpace(e[i])
    ensures !IsEmail(e)
  {
    if IsEmail(e) {
      EmailShape(e);
    }
  }

  /** An email held by another user, compared lower-cased, is refused and
      nothing is written. */
  lemma UpdateRefusesTakenEmail(users: map<string, UserRecord>, userId: string,
                                name: string, email: string, phone: string, other: string)
    requires name != "" && phone != "" && IsEmail(email)
    requires other in users && other != userId && users[other].email == AsciiLower(email)
    ensures UpdateProfile(users, userId, Some(name), Some(email), Some(phone)) == (Fail(400, EmailInUse), users)
  {
  }

  /** The stored email is the lower-cased input: an accepted email has no
      white space for the trim to remove. */
  lemma UpdatedEmailIsLowered(r: UserRecord, name: string, email: string, phone: string)
    requires IsEmail(email)
    ensures Updated(r, name, email, phone).email == AsciiLower(email)
    ensures IsEmail(AsciiLower(email))
  {
    LowerKeepsEmail(email);
    EmailIsTrimmed(AsciiLower(email));
  }

  /** No two users share an email. */
  predicate UniqueEmails(users: map<string, UserRecord>) {
    forall a, b :: a in users && b in users && users[a].email == users[b].email ==> a == b
  }

  /** Every stored user satisfies the schema's validators. */
  predicate AllValid(users: map<string, UserRecord>) {
    forall id :: id in users ==> ValidUser(users[id])
  }

  /** A successful update keeps a valid user valid. */
  lemma UpdatedIsValid(r: UserRecord, name: string, email: string, phone: string)
    requires ValidUser(r) && IsEmail(email) && Trim(name) != "" && Trim(phone) != ""
    ensures ValidUser(Updated(r, name, email, phone))
  {
    TrimIdempotent(name);
    TrimIdempotent(phone);
    LowerKeepsEmail(email);
    EmailIsTrimmed(AsciiLower(email));
    AsciiLowerIdempotent(email);
  }

  /** Writing a user whose email no other user holds keeps emails unique. */
  lemma WriteKeepsUniqueEmails(users: map<string, UserRecord>, userId: string, u: UserRecord)
    requires UniqueEmails(users) && !EmailTaken(users, userId, u.email)
    ensures UniqueEmails(users[userId := u])
  {
    var after := users[userId := u];
    forall a, b | a in after && b in after && after[a].email == after[b].email
      ensures a == b
    {
      if a != userId {
        assert after[a] == users[a];
      }
      if b != userId {
        assert after[b] == users[b];
      }
    }
  }

  lemma WriteKeepsAllValid(users: map<string, UserRecord>, userId: string, u: UserRecord)
    requires AllValid(users) && ValidUser(u)
    ensures AllValid(users[userId := u])
  {
  }

  /** Updating a profile keeps emails unique and users valid. */
  lemma UpdateKeepsInvariants(users: map<string, UserRecord>, userId: string,
                              name: Option<string>, email: Option<string>, phone: Option<string>)
    requires UniqueEmails(users) && AllValid(users)
    ensures UniqueEmails(UpdateProfile(users, userId, name, email, phone).1)
    ensures AllValid(UpdateProfile(users, userId, name, email, phone).1)
  {
    if UpdateProfile(users, userId, name, email, phone).0.status == 200 {
      UpdateWrites(users, userId, name, email, phone);
      var u := Updated(users[userId], name.value, email.value, phone.value);
      UpdatedEmailIsLowered(users[userId], name.value, email.value, phone.value);
      UpdatedIsValid(users[userId], name.value, email.value, phone.value);
      WriteKeepsUniqueEmails(users, userId, u);
      WriteKeepsAllValid(users, userId, u);
    }
  }

  // ---------------------------------------------------------------------------
  // changePassword


  /** The reply of `changePassword`, with `compare` standing for bcrypt's
      comparison of the entered password with the stored hash. The save
      validates the whole loaded user, so a stored user that fails a
      validator makes it throw, and the catch answers 500. */
  function ChangePasswordReply(users: map<string, UserRecord>, userId: string,
                               current: Option<string>, newPassword: Option<string>,
                               compare: (string, string) -> bool): (r: Reply)
    ensures r.status == 200 <==>
      Truthy(current) && Truthy(newPassword) && |newPassword.value| >= MinPasswordLength
      && userId in users && compare(current.value, users[userId].password)
      && SaveErrors(users[userId].(password := newPassword.value)) == {}
    ensures r.status == 500 <==>
      Truthy(current) && Truthy(newPassword) && |newPassword.value| >= MinPasswordLength
      && userId in users && compare(current.value, users[userId].password)
      && SaveErrors(users[userId].(password := newPassword.value)) != {}
    ensures r.data == None
  {
    if !Truthy(current) || !Truthy(newPassword) then Fail(400, PasswordsRequired)
    else if |newPassword.value| < MinPasswordLength then Fail(400, PasswordTooShort)
    else if userId !in users then Fail(404, UserNotFound)
    else if !compare(current.value, users[userId].password) then Fail(400, WrongPassword)
    else if SaveErrors(users[userId].(password := newPassword.value)) != {} then Fail(500, ServerError)
    else Reply(200, true, Some(PasswordChanged), None)
  }

  /** While every stored user is valid, the save never rejects a password
      change: a change whose checks pass succeeds. */
  lemma ChangePasswordOfValidUsers(users: map<string, UserRecord>, userId: string,
                                   current: Option<string>, newPassword: Option<string>,
                                   compare: (string, string) -> bool)
    requires AllValid(users)
    ensures ChangePasswordReply(users, userId, current, newPassword, compare).status != 500
  {
    if Truthy(current) && Truthy(newPassword) && |newPassword.value| >= MinPasswordLength && userId in users {
      ValidUserSaves(users[userId], newPassword.value);
    }
  }

  /** A stored user with an empty name fails the save's validation, so the
      correct current password still gets a 500 and no change. */
  lemma ChangePasswordInvalidStored()
    ensures ChangePasswordReply(map["u" := UserRecord("u", "", "a@b.co", "1", "hash", "user", false, 0)], "u",
                                Some("oldpass1"), Some("newpassword"), (a: string, b: string) => true)
            == Fail(500, ServerError)
  {
    var r := UserRecord("u", "", "a@b.co", "1", "newpassword", "user", false, 0);
    assert r.name == "";
    assert SaveErrors(r) != {};
  }

  /** Missing or short passwords are refused before the user is fetched:
      the reply is the same whatever the collection holds. */
  lemma ChangePasswordChecksFirst(users: map<string, UserRecord>, others: map<string, UserRecord>, userId: string,
                                  current: Option<string>, newPassword: Option<string>,
                                  compare: (string, string) -> bool)
    requires !Truthy(current) || !Truthy(newPassword) || |newPassword.value| < MinPasswordLength
    ensures ChangePasswordReply(users, userId, current, newPassword, compare)
            == ChangePasswordReply(others, userId, current, newPassword, compare)
    ensures ChangePasswordReply(users, userId, current, newPassword, compare).status == 400
  {
  }

  /** The user collection, as the password change updates it. */
  class UserStore {
    var users: map<string, UserRecord>

    constructor (users0: map<string, UserRecord>)
      ensures users == users0
    {
      users := users0;
    }

    /** `changePassword`: after the checks, the fetched document's password
        is assigned and the document saved, so the pre-save hook stores the
        hash of the new password; a new password equal to the stored value
        leaves the path unmodified and the stored value as it is. A save the
        validators reject is a 500, and on every refusal nothing changes. */
    method ChangePassword(userId: string, current: Option<string>, newPassword: Option<string>,
                          compare: (string, string) -> bool, hash: (string, string) -> string, salt: string)
      returns (reply: Reply)
      modifies this
      ensures reply == ChangePasswordReply(old(users), userId, current, newPassword, compare)
      ensures reply.status != 200 ==> users == old(users)
      ensures reply.status == 200 && newPassword.value != old(users)[userId].password ==>
        users == old(users)[userId := old(users)[userId].(password := hash(newPassword.value, salt))]
      ensures reply.status == 200 && newPassword.value == old(users)[userId].password ==> users == old(users)
    {
      if !Truthy(current) || !Truthy(newPassword) {
        return Fail(400, PasswordsRequired);
      }
      if |newPassword.value| < MinPasswordLength {
        return Fail(400, PasswordTooShort);
      }
      if userId !in users {
        return Fail(404, UserNotFound);
      }
      var user := new UserDoc(users[userId]);
      var ok := user.MatchPassword(current.value, compare);
      if !ok {
        return Fail(400, WrongPassword);
      }
      user.SetPassword(newPassword.value);
      var errs := user.Save(hash, salt);
      if errs != {} {
        return Fail(500, ServerError);
      }
      users := users[userId := user.Record()];
      reply := Reply(200, true, Some(PasswordChanged), None);
    }

    /** After a successful change the new password is accepted at the next
        login: a fresh document of the stored user matches it, given that
        `compare` accepts every password against its own hash. A new password
        equal to the stored value is not rehashed, so it matches only when
        `compare` accepts it against itself. */
    method ChangedPasswordMatches(userId: string, current: Option<string>, newPassword: Option<string>,
                                  compare: (string, string) -> bool, hash: (string, string) -> string, salt: string)
      returns (reply: Reply, ok: bool)
      requires forall q, t :: compare(q, hash(q, t))
      modifies this
      ensures reply == ChangePasswordReply(old(users), userId, current, newPassword, compare)
      ensures reply.status == 200 && newPassword.value != old(users)[userId].password ==> ok
      ensures reply.status == 200 && newPassword.value == old(users)[userId].password ==>
        ok == compare(newPassword.value, newPassword.value)
    {
      reply := ChangePassword(userId, current, newPassword, compare, hash, salt);
      ok := false;
      if reply.status == 200 {
        var doc := new UserDoc(users[userId]);
        ok := doc.MatchPassword(newPassword.value, compare);
      }
    }
  }

  /** A password change leaves every email where it was, so emails stay unique. */
  lemma PasswordChangeKeepsUniqueEmails(users: map<string, UserRecord>, userId: string, p: string)
    requires UniqueEmails(users) && userId in users
    ensures UniqueEmails(users[userId := users[userId].(password := p)])
  {
    var after := users[userId := users[userId].(password := p)];
    assert forall id :: id in after ==> id in users && after[id].email == users[id].email;
  }
}
