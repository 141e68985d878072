/** Sign-in by one-time code: a user, identified by phone, asks for a code, then proves
    possession of it; the code is single-use and valid for ten minutes. */
module Auth {
  import opened Wrappers
  import opened Schema
  import opened Store

  /** The country prefix every stored phone carries. */
  const CountryPrefix: string := "+91"

  /** How long an issued code stays valid: ten minutes, in milliseconds. */
  const OtpValidity: int := 10 * 60 * 1000

  function FormatPhone(phone: string): (r: string)
    ensures |r| == |phone| + 3 && r[..3] == CountryPrefix && r[3..] == phone
  {
    CountryPrefix + phone
  }

  /** What the code generator yields: six decimal digits, the first not zero. */
  predicate SixDigitCode(code: string)
  {
    |code| == 6 && code[0] != '0' && forall i :: 0 <= i < 6 ==> '0' <= code[i] <= '9'
  }

  /** The position of the user with that phone. */
  function FindByPhone(users: seq<User>, phone: string): (r: Option<nat>)
    ensures r.Some? ==> r.value < |users| && users[r.value].phone == phone
    ensures r.None? ==> forall k :: 0 <= k < |users| ==> users[k].phone != phone
  {
    if users == [] then None
    else if users[|users| - 1].phone == phone then Some(|users| - 1)
    else FindByPhone(users[..|users| - 1], phone)
  }

  /** With phones unique, the user found is the only one with that phone. */
  lemma FindByPhoneUnique(users: seq<User>, k: nat)
    requires UsersIndexed(users) && k < |users|
    ensures FindByPhone(users, users[k].phone) == Some(k)
  {
  }

  datatype AuthError =
    | PhoneInvalid
    | FieldsRequired
    | UserNotFound
    | InvalidOtp
    | OtpExpired
    | AuthenticationRequired
    | InvalidToken

  // ---------------------------------------------------------------------------
  // Requesting a code

  /** The users after issuing `code` to `phone`, expiring at `expires`: the user with that
      phone gets the code and expiry, or a new unverified customer is created with them. */
  function Issued(users: seq<User>, phone: string, code: string, expires: Instant): (r: seq<User>)
    ensures FindByPhone(users, phone).Some? ==>
      var k := FindByPhone(users, phone).value;
      r == users[k := users[k].(otp := Some(code), otpExpires := Some(expires))]
    ensures FindByPhone(users, phone).None? ==>
      r == users + [User(|users|, phone, None, None, Customer, false, Some(code), Some(expires))]
  {
    match FindByPhone(users, phone)
    case Some(k) => users[k := users[k].(otp := Some(code), otpExpires := Some(expires))]
    case None => users + [User(|users|, phone, None, None, Customer, false, Some(code), Some(expires))]
  }

  /** Issuing a code keeps exactly one user per phone, and that user holds the code. */
  lemma IssuedOnePerPhone(users: seq<User>, phone: string, code: string, expires: Instant)
    requires UsersIndexed(users)
    ensures var r := Issued(users, phone, code, expires);
      && UsersIndexed(r)
      && FindByPhone(r, phone).Some?
      && r[FindByPhone(r, phone).value].otp == Some(code)
      && r[FindByPhone(r, phone).value].otpExpires == Some(expires)
      && |r| == |users| + (if FindByPhone(users, phone).Some? then 0 else 1)
  {
    var r := Issued(users, phone, code, expires);
    if FindByPhone(users, phone).None? {
      assert r[|users|].phone == phone;
      FindByPhoneUnique(r, |users|);
    } else {
      var k := FindByPhone(users, phone).value;
      FindByPhoneUnique(r, k);
    }
  }

  /** Asks for a code for a ten-digit phone: anything else is refused and changes
      nothing; otherwise `code` (the generator's value) is issued to the phone with the
      prefix added, valid for ten minutes from now. */
  method RequestOtp(db: Db, phone: string, code: string, now: Instant) returns (r: Result<(), AuthError>)
    requires db.Valid() && SixDigitCode(code)
    modifies db`users
    ensures db.Valid()
    ensures |phone| != 10 ==> r == Err(PhoneInvalid) && db.users == old(db.users)
    ensures |phone| == 10 ==> r == Ok(()) && db.users == Issued(old(db.users), FormatPhone(phone), code, now + OtpValidity)
  {
    if |phone| != 10 {
      return Err(PhoneInvalid);
    }
    var formatted := FormatPhone(phone);
    var expires := now + OtpValidity;
    var found := FindByPhone(db.users, formatted);
    IssuedOnePerPhone(db.users, formatted, code, expires);
    if found.Some? {
      var user := db.users[found.value];
      user := user.(otp := Some(code), otpExpires := Some(expires));
      db.users := db.users[found.value := user];
    } else {
      var user := User(|db.users|, formatted, None, None, Customer, false, Some(code), Some(expires));
      db.users := db.users + [user];
    }
    r := Ok(());
  }

  // ---------------------------------------------------------------------------
  // Verifying a code

  /** The first check a verification fails, in the handler's order: phone and code present,
      a user with that phone, the code matching the stored one, and the stored code not
      expired (a missing expiry never expires). A missing field arrives as "". */
  function VerifyRejection(users: seq<User>, phone: string, otp: string, now: Instant): (r: Option<AuthError>)
    ensures r == Some(FieldsRequired) <==> phone == "" || otp == ""
    ensures r == Some(UserNotFound) <==>
      phone != "" && otp != "" && FindByPhone(users, FormatPhone(phone)).None?
    ensures r == Some(InvalidOtp) <==>
      && phone != "" && otp != "" && FindByPhone(users, FormatPhone(phone)).Some?
      && users[FindByPhone(users, FormatPhone(phone)).value].otp != Some(otp)
    ensures r == Some(OtpExpired) <==>
      && phone != "" && otp != "" && FindByPhone(users, FormatPhone(phone)).Some?
      && var u := users[FindByPhone(users, FormatPhone(phone)).value];
         u.otp == Some(otp) && u.otpExpires.Some? && u.otpExpires.value < now
    ensures r.None? <==>
      && phone != "" && otp != "" && FindByPhone(users, FormatPhone(phone)).Some?
      && var u := users[FindByPhone(users, FormatPhone(phone)).value];
         u.otp == Some(otp) && !(u.otpExpires.Some? && u.otpExpires.value < now)
  {
    if phone == "" || otp == "" then Some(FieldsRequired)
    else match FindByPhone(users, FormatPhone(phone))
      case None => Some(UserNotFound)
      case Some(k) =>
        if users[k].otp != Some(otp) then Some(InvalidOtp)
        else if users[k].otpExpires.Some? && users[k].otpExpires.value < now then Some(OtpExpired)
        else None
  }

  /** A user after a successful verification: verified, code and expiry cleared, and name
      and location replaced only by non-empty values. Identity, phone and role are kept. */
  function Verified(u: User, name: string, location: string): (r: User)
    ensures r.isVerified && r.otp.None? && r.otpExpires.None?
    ensures r.name == (if name != "" then Some(name) else u.name)
    ensures r.location == (if location != "" then Some(location) else u.location)
    ensures r.id == u.id && r.phone == u.phone && r.role == u.role
  {
    u.(isVerified := true, otp := None, otpExpires := None,
       name := if name != "" then Some(name) else u.name,
       location := if location != "" then Some(location) else u.location)
  }

  /** The token a session carries: an unforgeable function of the user and role. */
  datatype Token = Token(userId: nat, role: Role)

  /** What a response may show of a user; the code and its expiry are not part of it. */
  datatype PublicUser = PublicUser(id: nat, phone: string, name: Option<string>, location: Option<string>, role: Role)

  function Project(u: User): (p: PublicUser)
    ensures p.id == u.id && p.phone == u.phone && p.name == u.name && p.location == u.location && p.role == u.role
  {
    PublicUser(u.id, u.phone, u.name, u.location, u.role)
  }

  /** The projection does not depend on the code fields: nothing about them leaks. */
  lemma ProjectHidesCode(u: User, otp: Option<string>, otpExpires: Option<Instant>, isVerified: bool)
    ensures Project(u.(otp := otp, otpExpires := otpExpires, isVerified := isVerified)) == Project(u)
  {
  }

  datatype Session = Session(token: Token, user: PublicUser)

  /** Verifies a code: a rejection changes nothing; success marks the user verified, clears
      the code, and opens a session for that user. */
  method VerifyOtp(db: Db, phone: string, otp: string, name: string, location: string, now: Instant)
    returns (r: Result<Session, AuthError>)
    requires db.Valid()
    modifies db`users
    ensures db.Valid()
    ensures r.Err? <==> VerifyRejection(old(db.users), phone, otp, now).Some?
    ensures r.Err? ==> r.error == VerifyRejection(old(db.users), phone, otp, now).value && db.users == old(db.users)
    ensures r.Ok? ==>
      && FindByPhone(old(db.users), FormatPhone(phone)).Some?
      && var k := FindByPhone(old(db.users), FormatPhone(phone)).value;
         && db.users == old(db.users)[k := Verified(old(db.users)[k], name, location)]
         && r.value == Session(Token(k, db.users[k].role), Project(db.users[k]))
  {
    if phone == "" || otp == "" {
      return Err(FieldsRequired);
    }
    var found := FindByPhone(db.users, FormatPhone(phone));
    if found.None? {
      return Err(UserNotFound);
    }
    var k := found.value;
    var user := db.users[k];
    if user.otp != Some(otp) {
      return Err(InvalidOtp);
    }
    if user.otpExpires.Some? && user.otpExpires.value < now {
      return Err(OtpExpired);
    }
    user := user.(isVerified := true, otp := None, otpExpires := None);
    if name != "" {
      user := user.(name := Some(name));
    }
    if location != "" {
      user := user.(location := Some(location));
    }
    db.users := db.users[k := user];
    r := Ok(Session(Token(k, user.role), Project(user)));
  }

  /** A code is single-use: once verified, the same code is refused as a mismatch, at any time. */
  lemma SecondVerifyFails(users: seq<User>, phone: string, otp: string, name: string, location: string,
                          now: Instant, later: Instant)
    requires UsersIndexed(users) && VerifyRejection(users, phone, otp, now).None?
    ensures var k := FindByPhone(users, FormatPhone(phone)).value;
      VerifyRejection(users[k := Verified(users[k], name, location)], phone, otp, later) == Some(InvalidOtp)
  {
    var k := FindByPhone(users, FormatPhone(phone)).value;
    var users' := users[k := Verified(users[k], name, location)];
    assert UsersIndexed(users') by {
      assert forall i :: 0 <= i < |users| ==> users'[i].phone == users[i].phone && users'[i].id == users[i].id;
    }
    FindByPhoneUnique(users', k);
  }

  /** Request then verify: a code issued to a ten-digit phone is accepted up to ten
      minutes later and refused as expired after that. */
  lemma IssuedCodeVerifies(users: seq<User>, phone: string, code: string, now: Instant, at: Instant)
    requires UsersIndexed(users) && |phone| == 10 && SixDigitCode(code)
    ensures var r := Issued(users, FormatPhone(phone), code, now + OtpValidity);
      && (at <= now + OtpValidity ==> VerifyRejection(r, phone, code, at).None?)
      && (at > now + OtpValidity ==> VerifyRejection(r, phone, code, at) == Some(OtpExpired))
  {
    IssuedOnePerPhone(users, FormatPhone(phone), code, now + OtpValidity);
  }

  // ---------------------------------------------------------------------------
  // The current user

  /** The credential a request carries: none, one that does not verify, or a valid token. */
  datatype Credential = NoToken | BadToken | Bearer(token: Token)

  /** The user behind a request's credential, as the public projection. */
  function Me(users: seq<User>, c: Credential): (r: Result<PublicUser, AuthError>)
    ensures c.NoToken? ==> r == Err(AuthenticationRequired)
    ensures c.BadToken? ==> r == Err(InvalidToken)
    ensures c.Bearer? && c.token.userId >= |users| ==> r == Err(UserNotFound)
    ensures c.Bearer? && c.token.userId < |users| ==> r == Ok(Project(users[c.token.userId]))
  {
    match c
    case NoToken => Err(AuthenticationRequired)
    case BadToken => Err(InvalidToken)
    case Bearer(t) => if t.userId < |users| then Ok(Project(users[t.userId])) else Err(UserNotFound)
  }

  /** The session a verification opens names the verified user: asking who it is yields
      the same public view. */
  lemma SessionIsMe(users: seq<User>, phone: string, otp: string, name: string, location: string, now: Instant)
    requires UsersIndexed(users) && VerifyRejection(users, phone, otp, now).None?
    ensures var k := FindByPhone(users, FormatPhone(phone)).value;
      var users' := users[k := Verified(users[k], name, location)];
      Me(users', Bearer(Token(k, users'[k].role))) == Ok(Project(users'[k]))
  {
  }
}
