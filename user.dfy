/** The user model: the token-lifetime normaliser of `getSignedJwtToken`, the
    email pattern, the role and password constraints, and the pre-save hook
    that rehashes a modified password. */
module UserModel {
  import opened Wrappers
  import opened JsText
  import opened EmailFormat

  // ---------------------------------------------------------------------------
  // Token lifetime

  /** The units the lifetime pattern lists, in lower case. */
  const ExpireUnits: set<string> := {
    "ms", "millisecond", "milliseconds", "s", "sec", "second", "seconds",
    "m", "min", "minute", "minutes", "h", "hr", "hour", "hours",
    "d", "day", "days", "w", "wk", "week", "weeks", "y", "yr", "yrs", "year", "years"}

  predicate IsLowerWord(u: string) {
    u != [] && forall m :: 0 <= m < |u| ==> 'a' <= u[m] <= 'z'
  }

  /** A unit is a lower-case word among the listed ones. */
  predicate IsExpireUnit(u: string) {
    IsLowerWord(u) && u in ExpireUnits
  }

  /** The end of the run of decimal digits that starts at `i`. */
  function DigitsFrom(s: string, i: nat): (j: nat)
    requires i <= |s|
    ensures i <= j <= |s| && (forall m :: i <= m < j ==> IsDecDigit(s[m]))
    ensures j < |s| ==> !IsDecDigit(s[j])
    decreases |s| - i
  {
    if i < |s| && IsDecDigit(s[i]) then DigitsFrom(s, i + 1) else i
  }

  /** The end of the run of white space that starts at `i`. */
  function SpacesFrom(s: string, i: nat): (j: nat)
    requires i <= |s|
    ensures i <= j <= |s| && (forall m :: i <= m < j ==> IsSpace(s[m]))
    ensures j < |s| ==> !IsSpace(s[j])
    decreases |s| - i
  {
    if i < |s| && IsSpace(s[i]) then SpacesFrom(s, i + 1) else i
  }

  /** The end of the number at the start of `s`: its digits, then a '.' and
      digits when a digit follows the '.'. */
  function NumberEnd(s: string): (j: nat)
    ensures j <= |s|
  {
    var i := DigitsFrom(s, 0);
    if i < |s| && s[i] == '.' && DigitsFrom(s, i + 1) > i + 1 then DigitsFrom(s, i + 1) else i
  }

  /** A scanner for the lifetime pattern: a number (digits with an optional
      fraction), white space, then a unit in any letter case. */
  predicate ValidExpire(s: string) {
    var j := NumberEnd(s);
    DigitsFrom(s, 0) > 0 && IsExpireUnit(AsciiLower(s[SpacesFrom(s, j)..]))
  }

  /** Positions `i <= j <= k` cut `s` into digits, an optional '.' followed
      by digits, white space, and a unit in any letter case. */
  ghost predicate PatternCut(s: string, i: int, j: int, k: int) {
    0 < i <= j <= k <= |s| && (forall m :: 0 <= m < i ==> IsDecDigit(s[m]))
    && (j == i || (j > i + 1 && s[i] == '.' && forall m :: i + 1 <= m < j ==> IsDecDigit(s[m])))
    && (forall m :: j <= m < k ==> IsSpace(s[m])) && IsExpireUnit(AsciiLower(s[k..]))
  }

  /** The lifetime pattern as the regular expression states it,
      `^(\d+(?:\.\d+)?)\s*(unit)$` ignoring case. */
  ghost predicate ExpirePattern(s: string) {
    exists i, j, k :: PatternCut(s, i, j, k)
  }

  /** A character that lowers to a lower-case letter is a letter. */
  lemma LowerToLetter(c: char)
    requires 'a' <= LowerChar(c) <= 'z'
    ensures ('a' <= c <= 'z') || ('A' <= c <= 'Z')
  {
  }

  /** The text from a unit's first character is not white space, not a digit
      and not a '.', and neither is its last character. */
  lemma UnitStart(s: string, k: int)
    requires 0 <= k <= |s| && IsExpireUnit(AsciiLower(s[k..]))
    ensures k < |s| && !IsSpace(s[k]) && !IsDecDigit(s[k]) && s[k] != '.'
    ensures !IsSpace(s[|s| - 1]) && !IsDecDigit(s[|s| - 1])
  {
    var u := AsciiLower(s[k..]);
    assert u[0] == LowerChar(s[k]);
    LowerToLetter(s[k]);
    assert u[|u| - 1] == LowerChar(s[|s| - 1]);
    LowerToLetter(s[|s| - 1]);
  }

  /** A run of digits from `i` that stops at `j` is the run `DigitsFrom` finds. */
  lemma {:induction false} DigitsFromIs(s: string, i: nat, j: nat)
    requires i <= j <= |s| && (forall m :: i <= m < j ==> IsDecDigit(s[m]))
    requires j < |s| ==> !IsDecDigit(s[j])
    ensures DigitsFrom(s, i) == j
    decreases j - i
  {
    if i < j {
      DigitsFromIs(s, i + 1, j);
    }
  }

  /** A run of white space from `j` that stops at `k` is the run `SpacesFrom` finds. */
  lemma {:induction false} SpacesFromIs(s: string, j: nat, k: nat)
    requires j <= k <= |s| && (forall m :: j <= m < k ==> IsSpace(s[m]))
    requires k < |s| ==> !IsSpace(s[k])
    ensures SpacesFrom(s, j) == k
    decreases k - j
  {
    if j < k {
      SpacesFromIs(s, j + 1, k);
    }
  }

  /** The scanner accepts exactly the strings the pattern matches. */
  lemma ValidExpireIffPattern(s: string)
    ensures ValidExpire(s) <==> ExpirePattern(s)
  {
    if ValidExpire(s) {
      ValidExpireToPattern(s);
    }
    if ExpirePattern(s) {
      PatternToValidExpire(s);
    }
  }

  lemma ValidExpireToPattern(s: string)
    requires ValidExpire(s)
    ensures ExpirePattern(s)
  {
    var i := DigitsFrom(s, 0);
    var j := NumberEnd(s);
    var k := SpacesFrom(s, j);
    assert PatternCut(s, i, j, k);
  }

  /** Digits up to `i`, then optionally '.' and digits up to `j`, then
      neither a digit nor a '.': the number ends at `j`. */
  lemma NumberEndIs(s: string, i: int, j: int)
    requires 0 < i <= j <= |s| && (forall m :: 0 <= m < i ==> IsDecDigit(s[m]))
    requires j == i || (j > i + 1 && s[i] == '.' && forall m :: i + 1 <= m < j ==> IsDecDigit(s[m]))
    requires j < |s| && s[j] != '.' && !IsDecDigit(s[j])
    ensures DigitsFrom(s, 0) == i && NumberEnd(s) == j
  {
    DigitsFromIs(s, 0, i);
    if j > i {
      DigitsFromIs(s, i + 1, j);
    }
  }

  /** White space is neither a digit nor a '.'. */
  lemma SpaceIsNotNumber(c: char)
    requires IsSpace(c)
    ensures c != '.' && !IsDecDigit(c)
  {
  }

  lemma PatternToValidExpire(s: string)
    requires ExpirePattern(s)
    ensures ValidExpire(s)
  {
    var i, j, k :| PatternCut(s, i, j, k);
    UnitStart(s, k);
    // After the number comes white space or the unit's first letter.
    if j < k {
      SpaceIsNotNumber(s[j]);
    }
    NumberEndIs(s, i, j);
    SpacesFromIs(s, j, k);
  }

  /** The default lifetime '1h' is accepted. */
  lemma DefaultExpireValid()
    ensures ValidExpire("1h")
  {
    assert DigitsFrom("1h", 0) == 1;
    assert SpacesFrom("1h", 1) == 1;
    assert AsciiLower("1h"[1..]) == "h";
  }

  /** `(process.env.JWT_EXPIRE || '1h').toString().trim()`; the fallback
      '1h' has nothing to trim (`RawExpireTrimsFallback`). */
  function RawExpire(env: Option<string>): string {
    if Truthy(env) then Trim(env.value) else "1h"
  }

  /** Trimming the setting or its fallback is what `RawExpire` does. */
  lemma RawExpireTrimsFallback(env: Option<string>)
    ensures RawExpire(env) == Trim(OrElse(env, "1h"))
  {
    if !Truthy(env) {
      TrimKeepsUnpadded("1h");
    }
  }

  /** The lifetime handed to the signer: the trimmed setting when the pattern
      accepts it, '1h' otherwise. */
  function NormaliseExpire(env: Option<string>): (r: string)
    ensures ValidExpire(r)
    ensures r == "1h" || (Truthy(env) && r == Trim(env.value))
  {
    var jwtExpire := RawExpire(env);
    DefaultExpireValid();
    if !ValidExpire(jwtExpire) then "1h" else jwtExpire
  }

  lemma NormaliseExpireOfRaw(env: Option<string>)
    ensures NormaliseExpire(env) == (if ValidExpire(RawExpire(env)) then RawExpire(env) else "1h")
  {
  }

  /** Any setting: its trim is kept when the pattern accepts it, and '1h'
      is used otherwise. */
  lemma NormaliseExpireOfSetting(s: string)
    ensures ValidExpire(Trim(s)) ==> NormaliseExpire(Some(s)) == Trim(s)
    ensures !ValidExpire(Trim(s)) ==> NormaliseExpire(Some(s)) == "1h"
  {
    NormaliseExpireOfRaw(Some(s));
    if s == "" {
      assert Trim(s) == "";
      assert DigitsFrom("", 0) == 0;
    }
  }

  /** An accepted lifetime is already trimmed. */
  lemma ValidExpireUnpadded(s: string)
    requires ValidExpire(s)
    ensures s != [] && Trim(s) == s
  {
    UnitStart(s, SpacesFrom(s, NumberEnd(s)));
    TrimKeepsUnpadded(s);
  }

  /** A non-empty setting with no surrounding white space is read as it is. */
  lemma RawExpireOfTrimmed(t: string)
    requires t != [] && Trim(t) == t
    ensures RawExpire(Some(t)) == t
  {
  }

  /** An accepted lifetime is kept as it is. */
  lemma NormaliseKeepsValid(t: string)
    requires ValidExpire(t)
    ensures NormaliseExpire(Some(t)) == t
  {
    ValidExpireUnpadded(t);
    RawExpireOfTrimmed(t);
  }

  /** Normalising an already normalised lifetime changes nothing. */
  lemma NormaliseExpireIdempotent(env: Option<string>)
    ensures NormaliseExpire(Some(NormaliseExpire(env))) == NormaliseExpire(env)
  {
    NormaliseKeepsValid(NormaliseExpire(env));
  }

  /** A fraction is part of the number. */
  lemma ExpireAcceptsFraction()
    ensures ValidExpire("1.5h")
  {
    assert DigitsFrom("1.5h", 0) == 1;
    assert DigitsFrom("1.5h", 2) == 3;
    assert NumberEnd("1.5h") == 3;
    assert SpacesFrom("1.5h", 3) == 3;
    assert AsciiLower("1.5h"[3..]) == "h";
  }

  /** White space may separate the number from the unit. */
  lemma ExpireAcceptsSpacedUnit()
    ensures ValidExpire("2 days")
  {
    assert DigitsFrom("2 days", 0) == 1;
    assert NumberEnd("2 days") == 1;
    assert SpacesFrom("2 days", 1) == 2;
    assert AsciiLower("2 days"[2..]) == "days";
  }

  /** The unit's letter case does not matter. */
  lemma ExpireAcceptsUpperCase()
    ensures ValidExpire("2 DAYS")
  {
    assert DigitsFrom("2 DAYS", 0) == 1;
    assert NumberEnd("2 DAYS") == 1;
    assert SpacesFrom("2 DAYS", 1) == 2;
    assert AsciiLower("2 DAYS"[2..]) == "days";
  }

  /** "yrs" is a listed unit. */
  lemma ExpireAcceptsYrs()
    ensures ValidExpire("3yrs")
  {
    assert DigitsFrom("3yrs", 0) == 1;
    assert NumberEnd("3yrs") == 1;
    assert SpacesFrom("3yrs", 1) == 1;
    assert AsciiLower("3yrs"[1..]) == "yrs";
  }

  /** A bare number has no unit. */
  lemma ExpireRejectsBareNumber()
    ensures !ValidExpire("3600")
  {
    assert DigitsFrom("3600", 0) == 4;
    assert NumberEnd("3600") == 4;
    assert SpacesFrom("3600", 4) == 4;
    assert AsciiLower("3600"[4..]) == "";
  }

  /** A sign, or no number at all, is rejected. */
  lemma ExpireRejectsNoNumber()
    ensures !ValidExpire("-1h") && !ValidExpire("secs")
  {
    assert DigitsFrom("-1h", 0) == 0;
    assert DigitsFrom("secs", 0) == 0;
  }

  /** "secs", "mins" and "hrs" are not listed units. */
  lemma ExpireRejectsSecs()
    ensures !ValidExpire("1secs")
  {
    assert NumberEnd("1secs") == 1 && SpacesFrom("1secs", 1) == 1;
    assert AsciiLower("1secs"[1..]) == "secs";
  }

  lemma ExpireRejectsMins()
    ensures !ValidExpire("1mins")
  {
    assert NumberEnd("1mins") == 1 && SpacesFrom("1mins", 1) == 1;
    assert AsciiLower("1mins"[1..]) == "mins";
  }

  lemma ExpireRejectsHrs()
    ensures !ValidExpire("1hrs")
  {
    assert NumberEnd("1hrs") == 1 && SpacesFrom("1hrs", 1) == 1;
    assert AsciiLower("1hrs"[1..]) == "hrs";
  }

  /** An unset or empty setting becomes '1h'. */
  lemma NormaliseExpireUnset()
    ensures NormaliseExpire(None) == "1h" && NormaliseExpire(Some("")) == "1h"
  {
  }

  /** A rejected setting becomes '1h'. */
  lemma NormaliseExpireRejected()
    ensures NormaliseExpire(Some("3600")) == "1h"
  {
    ExpireRejectsBareNumber();
    TrimKeepsUnpadded("3600");
    NormaliseRejects("3600");
  }

  /** A trimmed setting the pattern rejects becomes '1h'. */
  lemma NormaliseRejects(t: string)
    requires t != [] && Trim(t) == t && !ValidExpire(t)
    ensures NormaliseExpire(Some(t)) == "1h"
  {
    RawExpireOfTrimmed(t);
  }

  /** Trimming strips the padding around an accepted setting. */
  lemma TrimPaddedDays()
    ensures Trim(" 2 days ") == "2 days"
  {
    assert " 2 days " == [' '] + "2 days ";
    TrimStartSkips([' '], "2 days ");
    assert TrimEnd("2 days ") == "2 days";
  }

  /** An accepted setting is trimmed. */
  lemma NormaliseExpireTrims()
    ensures NormaliseExpire(Some(" 2 days ")) == "2 days"
  {
    ExpireAcceptsSpacedUnit();
    TrimPaddedDays();
    var t := RawExpire(Some(" 2 days "));
    assert t == "2 days";
    assert ValidExpire(t);
  }

  // ---------------------------------------------------------------------------
  // Schema constraints

  /** The values the `role` enum admits; a user is created as 'user' unless told otherwise. */
  const Roles: set<string> := {"user", "admin"}
  const DefaultRole: string := "user"

  /** The `minlength` of `password`. */
  const MinPasswordLength: nat := 8

  /** The schema paths that carry validators. */
  datatype Field = Name | Email | Phone | Password | Role

  /** The values a new user document is built from; `None` is an absent key. */
  datatype UserInput = UserInput(
    name: Option<string>, email: Option<string>, phone: Option<string>,
    password: Option<string>, role: Option<string>)

  /** A stored user. */
  datatype UserRecord = UserRecord(
    id: string, name: string, email: string, phone: string, password: string,
    role: string, emailVerified: bool, createdAt: int)

  /** The `trim` setter of `name` and `phone`. */
  function CastTrimmed(v: Option<string>): Option<string> {
    match v
    case None => None
    case Some(s) => Some(Trim(s))
  }

  /** The `lowercase` and `trim` setters of `email`. */
  function CastEmail(v: Option<string>): Option<string> {
    match v
    case None => None
    case Some(s) => Some(Trim(AsciiLower(s)))
  }

  /** `new User(input)`: the setters applied to each path. */
  function CastUser(u: UserInput): UserInput {
    UserInput(CastTrimmed(u.name), CastEmail(u.email), CastTrimmed(u.phone), u.password, u.role)
  }

  /** The `required` validator of a string path: the cast value is present and not empty. */
  predicate Supplied(v: Option<string>) {
    v.Some? && v.value != ""
  }

  /** The paths whose validators reject a cast document: `required` on every
      text path, `match` on the email, `minlength` on the password and `enum`
      on a role that is given. */
  function UserErrors(c: UserInput): (errs: set<Field>)
    ensures Name in errs <==> !Supplied(c.name)
    ensures Email in errs <==> !Supplied(c.email) || !IsEmail(c.email.value)
    ensures Phone in errs <==> !Supplied(c.phone)
    ensures Password in errs <==> !Supplied(c.password) || |c.password.value| < MinPasswordLength
    ensures Role in errs <==> c.role.Some? && c.role.value !in Roles
  {
    (if Supplied(c.name) then {} else {Name})
    + (if Supplied(c.email) && IsEmail(c.email.value) then {} else {Email})
    + (if Supplied(c.phone) then {} else {Phone})
    + (if Supplied(c.password) && |c.password.value| >= MinPasswordLength then {} else {Password})
    + (if c.role.Some? && c.role.value !in Roles then {Role} else {})
  }

  /** What a stored user satisfies: the cast values passed every validator. */
  predicate ValidUser(r: UserRecord) {
    r.name != "" && Trim(r.name) == r.name
    && IsEmail(r.email) && AsciiLower(r.email) == r.email
    && r.phone != "" && Trim(r.phone) == r.phone
    && |r.password| >= MinPasswordLength && r.role in Roles
  }

  /** `new User(input)` followed by validation: the cast document, with
      `emailVerified` false and `createdAt` the current instant, or the set
      of paths that failed. */
  function ValidateUser(u: UserInput, id: string, now: int): (r: Result<UserRecord, set<Field>>)
    ensures r.Failure? <==> UserErrors(CastUser(u)) != {}
    ensures r.Failure? ==> r.error == UserErrors(CastUser(u))
  {
    var c := CastUser(u);
    var errs := UserErrors(c);
    if errs != {} then Failure(errs)
    else Success(UserRecord(id, c.name.value, c.email.value, c.phone.value, c.password.value,
                            c.role.GetOr(DefaultRole), false, now))
  }

  /** Trimming a lower-cased text keeps it lower-cased. */
  lemma LowerOfTrim(l: string)
    requires AsciiLower(l) == l
    ensures AsciiLower(Trim(l)) == Trim(l)
  {
    var t := Trim(l);
    var u := TrimStart(l);
    forall i | 0 <= i < |t|
      ensures LowerChar(t[i]) == t[i]
    {
      assert t[i] == u[i] && u[i] == l[|l| - |u| + i];
      assert LowerChar(l[|l| - |u| + i]) == l[|l| - |u| + i];
    }
  }

  /** The cast email is trimmed and lower-cased. */
  lemma CastEmailNormal(v: string)
    ensures Trim(CastEmail(Some(v)).value) == CastEmail(Some(v)).value
    ensures AsciiLower(CastEmail(Some(v)).value) == CastEmail(Some(v)).value
  {
    var l := AsciiLower(v);
    TrimIdempotent(l);
    AsciiLowerIdempotent(v);
    LowerOfTrim(l);
  }

  /** A validated user satisfies the stored-user invariant, keeps the
      password as given, and is a 'user' unless a role was given. */
  lemma ValidatedIsValid(u: UserInput, id: string, now: int)
    requires ValidateUser(u, id, now).Success?
    ensures ValidUser(ValidateUser(u, id, now).value)
    ensures ValidateUser(u, id, now).value.password == u.password.value
    ensures u.role.None? ==> ValidateUser(u, id, now).value.role == DefaultRole
  {
    var c := CastUser(u);
    assert UserErrors(c) == {};
    TrimIdempotent(u.name.value);
    TrimIdempotent(u.phone.value);
    CastEmailNormal(u.email.value);
  }

  /** A cast document passes validation exactly when every path's
      validator accepts it. */
  lemma UserErrorsEmpty(c: UserInput)
    ensures UserErrors(c) == {} <==>
      Supplied(c.name) && Supplied(c.email) && IsEmail(c.email.value) && Supplied(c.phone)
      && Supplied(c.password) && |c.password.value| >= MinPasswordLength
      && (c.role.Some? ==> c.role.value in Roles)
  {
    var errs := UserErrors(c);
    if Supplied(c.name) && Supplied(c.email) && IsEmail(c.email.value) && Supplied(c.phone)
      && Supplied(c.password) && |c.password.value| >= MinPasswordLength
      && (c.role.Some? ==> c.role.value in Roles)
    {
      forall f: Field
        ensures f !in errs
      {
        match f
        case Name =>
        case Email =>
        case Phone =>
        case Password =>
        case Role =>
      }
    }
  }

  /** The input that would rebuild a stored user. */
  function InputOf(r: UserRecord): UserInput {
    UserInput(Some(r.name), Some(r.email), Some(r.phone), Some(r.password), Some(r.role))
  }

  /** The paths whose validators reject a loaded document when it is saved:
      every path read from the store is validated as it is stored, and the
      setters do not run again on those values. */
  function SaveErrors(r: UserRecord): (errs: set<Field>)
    ensures errs == {} <==>
      r.name != "" && r.email != "" && IsEmail(r.email) && r.phone != ""
      && |r.password| >= MinPasswordLength && r.role in Roles
  {
    UserErrorsEmpty(InputOf(r));
    UserErrors(InputOf(r))
  }

  /** A valid stored user given a password of the minimum length passes
      the save's validation. */
  lemma ValidUserSaves(r: UserRecord, p: string)
    requires ValidUser(r) && |p| >= MinPasswordLength
    ensures SaveErrors(r.(password := p)) == {}
  {
    EmailShape(r.email);
  }

  /** The setters change nothing in a stored user. */
  lemma CastOfValid(r: UserRecord)
    requires ValidUser(r)
    ensures CastUser(InputOf(r)) == InputOf(r)
  {
    EmailIsTrimmed(r.email);
  }

  /** A stored user validates back to itself: casting and validation change
      nothing in a record that already satisfies the invariant. */
  lemma ValidUserRoundTrip(r: UserRecord)
    requires ValidUser(r) && !r.emailVerified
    ensures ValidateUser(InputOf(r), r.id, r.createdAt) == Success(r)
  {
    CastOfValid(r);
    ValidateFixedInput(InputOf(r), r.id, r.createdAt);
  }

  /** An input the setters leave alone and the validators accept is stored as given. */
  lemma ValidateFixedInput(u: UserInput, id: string, now: int)
    requires CastUser(u) == u
    requires Supplied(u.name) && Supplied(u.email) && IsEmail(u.email.value) && Supplied(u.phone)
    requires Supplied(u.password) && |u.password.value| >= MinPasswordLength
    requires u.role.Some? && u.role.value in Roles
    ensures ValidateUser(u, id, now)
            == Success(UserRecord(id, u.name.value, u.email.value, u.phone.value, u.password.value, u.role.value, false, now))
  {
    UserErrorsEmpty(u);
  }

  /** A password shorter than eight characters is reported on its path. */
  lemma ShortPasswordRejected(u: UserInput, id: string, now: int)
    requires u.password.Some? && |u.password.value| < MinPasswordLength
    ensures ValidateUser(u, id, now).Failure? && Password in ValidateUser(u, id, now).error
  {
    var c := CastUser(u);
    assert c.password == u.password;
  }

  /** A role outside the enum is reported on its path. */
  lemma UnlistedRoleRejected(u: UserInput, id: string, now: int)
    requires u.role.Some? && u.role.value !in Roles
    ensures ValidateUser(u, id, now).Failure? && Role in ValidateUser(u, id, now).error
  {
    var c := CastUser(u);
    assert c.role == u.role;
  }

  /** An email the pattern rejects once lower-cased and trimmed is reported on its path. */
  lemma BadEmailRejected(u: UserInput, id: string, now: int)
    requires u.email.Some? && !IsEmail(Trim(AsciiLower(u.email.value)))
    ensures ValidateUser(u, id, now).Failure? && Email in ValidateUser(u, id, now).error
  {
    var c := CastUser(u);
    assert c.email == Some(Trim(AsciiLower(u.email.value)));
  }

  // ---------------------------------------------------------------------------
  // User documents

  /** The payload of a signed token. */
  datatype TokenPayload = TokenPayload(id: string, role: string)

  /** A user document as the controllers hold it: the stored fields and
      whether `password` was assigned since the document was loaded. */
  class UserDoc {
    var id: string
    var name: string
    var email: string
    var phone: string
    var password: string
    var role: string
    var emailVerified: bool
    var createdAt: int
    var passwordModified: bool

    /** A document loaded from the store; nothing is modified yet. */
    constructor (r: UserRecord)
      ensures Record() == r && !passwordModified
    {
      id, name, email, phone, password := r.id, r.name, r.email, r.phone, r.password;
      role, emailVerified, createdAt := r.role, r.emailVerified, r.createdAt;
      passwordModified := false;
    }

    function Record(): UserRecord
      reads this
    {
      UserRecord(id, name, email, phone, password, role, emailVerified, createdAt)
    }

    /** `user.password = p`: the path counts as modified only when the new
        value differs from the current one, so assigning the value already
        held leaves the mark as it was. */
    method SetPassword(p: string)
      modifies this
      ensures Record() == old(Record()).(password := p)
      ensures passwordModified == (old(passwordModified) || p != old(password))
    {
      passwordModified := passwordModified || p != password;
      password := p;
    }

    /** The pre-save hook: a modified password is replaced by its bcrypt hash
        under a fresh salt (`hash` and `salt` stand for bcrypt and
        `genSalt(10)`); an unmodified one is left alone. */
    method PreSave(hash: (string, string) -> string, salt: string)
      modifies this
      ensures passwordModified == old(passwordModified)
      ensures old(passwordModified) ==> Record() == old(Record()).(password := hash(old(password), salt))
      ensures !old(passwordModified) ==> Record() == old(Record())
    {
      if !passwordModified {
        return;
      }
      password := hash(password, salt);
    }

    /** `user.save()`: the document is validated before the pre-save hook,
        and a failing validator rejects the save with the paths it reports,
        leaving the document as it was; otherwise the hook runs, the
        document is written and no path counts as modified afterwards. */
    method Save(hash: (string, string) -> string, salt: string) returns (errs: set<Field>)
      modifies this
      ensures errs == SaveErrors(old(Record()))
      ensures errs != {} ==> Record() == old(Record()) && passwordModified == old(passwordModified)
      ensures errs == {} ==>
        Record() == old(Record()).(password := SavedPassword(old(password), old(passwordModified), hash, salt))
        && !passwordModified
    {
      errs := SaveErrors(Record());
      if errs != {} {
        return;
      }
      PreSave(hash, salt);
      passwordModified := false;
    }

    /** `user.matchPassword(entered)`, with `compare` standing for bcrypt's. */
    method MatchPassword(entered: string, compare: (string, string) -> bool) returns (ok: bool)
      ensures ok == compare(entered, password)
    {
      ok := compare(entered, password);
    }

    /** `getSignedJwtToken`: the payload and the lifetime handed to the
        signer; the secret and the signature are the library's. */
    method GetSignedJwtToken(env: Option<string>) returns (payload: TokenPayload, expiresIn: string)
      ensures payload == TokenPayload(id, role)
      ensures expiresIn == NormaliseExpire(env) && ValidExpire(expiresIn)
    {
      var jwtExpire := OrElse(env, "1h");
      jwtExpire := Trim(jwtExpire);
      RawExpireTrimsFallback(env);
      NormaliseExpireOfRaw(env);
      if !ValidExpire(jwtExpire) {
        jwtExpire := "1h";
      }
      payload := TokenPayload(id, role);
      expiresIn := jwtExpire;
      assert expiresIn == NormaliseExpire(env);
    }
  }

  /** The password a save leaves stored. */
  function SavedPassword(password: string, modified: bool, hash: (string, string) -> string, salt: string): string {
    if modified then hash(password, salt) else password
  }

  /** A password assigned and saved matches afterwards: with `compare`
      accepting every password against its own hash under any salt (bcrypt's
      correctness), the hash the pre-save hook stores accepts the assigned
      password. Assigning the value already held, on an unmodified document,
      marks nothing, so the save stores that value unhashed and the match is
      `compare` of the value against itself. A save the validators reject
      keeps the document as it was. */
  method AssignedPasswordMatches(doc: UserDoc, p: string,
                                 compare: (string, string) -> bool, hash: (string, string) -> string, salt: string)
    returns (errs: set<Field>, ok: bool)
    requires forall q, t :: compare(q, hash(q, t))
    modifies doc
    ensures errs == SaveErrors(old(doc.Record()).(password := p))
    ensures errs == {} ==>
      doc.Record() == old(doc.Record()).(password := SavedPassword(p, old(doc.passwordModified) || p != old(doc.password), hash, salt))
    ensures errs == {} && (old(doc.passwordModified) || p != old(doc.password)) ==> doc.password == hash(p, salt) && ok
    ensures errs == {} && !old(doc.passwordModified) && p == old(doc.password) ==> doc.password == p && ok == compare(p, p)
    ensures errs != {} ==> doc.Record() == old(doc.Record()).(password := p)
  {
    doc.SetPassword(p);
    errs := doc.Save(hash, salt);
    ok := doc.MatchPassword(p, compare);
  }

  /** Two saves in a row: the password the first save leaves stored (the
      hash when it was assigned, the stored one otherwise, or untouched when
      the save is rejected) is what the second save keeps, because the
      first clears the modification mark and a rejected save changes nothing. */
  method SaveTwice(doc: UserDoc, hash: (string, string) -> string, salt: string, salt2: string)
    returns (first: set<Field>, second: set<Field>)
    modifies doc
    ensures first == SaveErrors(old(doc.Record()))
    ensures first == {} ==> doc.password == SavedPassword(old(doc.password), old(doc.passwordModified), hash, salt)
    ensures first != {} ==> doc.password == old(doc.password)
    ensures doc.Record().(password := old(doc.password)) == old(doc.Record())
  {
    first := doc.Save(hash, salt);
    second := doc.Save(hash, salt2);
  }
}
