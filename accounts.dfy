/** The account handlers of src/controllers/user/authController.js:
    registration (a user and its student record), the one-time code that
    verifies a phone or resets a password, and the profile whitelist. Every
    e-mail address is cleaned with `NormalizeEmail` before it is looked up
    or stored. `Math.random()`, the clock, new document ids and whether the
    mail server accepts a message are parameters. */
module Accounts {
  import opened Options
  import opened Records
  import JsText
  import Seqs
  import Store

  // ---------------------------------------------------------------------------
  // One-time codes

  /** An OTP stays valid for ten minutes. */
  const OtpLifetimeMs: int := 10 * 60000

  function Pow10(k: nat): (p: nat)
    ensures p >= 1
  {
    if k == 0 then 1 else 10 * Pow10(k - 1)
  }

  /** A number from 10^(k-1) up to 10^k - 1 is written with k digits. */
  lemma {:induction false} DigitCount(n: nat, k: nat)
    requires k >= 1 && Pow10(k - 1) <= n < Pow10(k)
    ensures |JsText.NatToString(n)| == k
  {
    if k > 1 {
      assert Pow10(k - 1) == 10 * Pow10(k - 2);
      DigitCount(n / 10, k - 1);
    }
  }

  /** `Math.floor(100000 + Math.random() * 900000)` for a draw `rand` of
      `Math.random()`, which lies in [0, 1). */
  function OtpNumber(rand: real): (n: nat)
    requires 0.0 <= rand < 1.0
    ensures 100000 <= n <= 999999
  {
    var x := 100000.0 + rand * 900000.0;
    assert 100000.0 <= x < 1000000.0;
    x.Floor
  }

  /** The code sent by mail: six decimal digits. */
  function OtpCode(rand: real): (c: string)
    requires 0.0 <= rand < 1.0
    ensures |c| == 6
    ensures forall i :: 0 <= i < |c| ==> JsText.IsDecimalDigit(c[i])
  {
    var n := OtpNumber(rand);
    assert Pow10(5) == 100000 && Pow10(6) == 1000000;
    DigitCount(n, 6);
    JsText.NatToString(n)
  }

  /** A user after a code is issued at `nowMs`. */
  function Issued(u: User, rand: real, nowMs: int): (r: User)
    requires 0.0 <= rand < 1.0
    ensures r.otpCode == Some(OtpCode(rand)) && r.otpExpires == Some(nowMs + OtpLifetimeMs)
    ensures r.(otpCode := u.otpCode, otpExpires := u.otpExpires) == u
  {
    u.(otpCode := Some(OtpCode(rand)), otpExpires := Some(nowMs + OtpLifetimeMs))
  }

  /** A user after a code is used up: no code and no expiry. */
  function Cleared(u: User): (r: User)
    ensures r.otpCode.None? && r.otpExpires.None?
    ensures r.(otpCode := u.otpCode, otpExpires := u.otpExpires) == u
  {
    u.(otpCode := None, otpExpires := None)
  }

  /** forgotPassword: a missing address throws (500); an unknown address is
      404; otherwise a new code is stored and mailed. A mail failure is 500,
      but the code has already been saved. */
  method ForgotPassword(db: Store.Db, email: Option<string>, rand: real, nowMs: int, mailOk: bool)
    returns (code: int)
    requires 0.0 <= rand < 1.0
    modifies db`users
    ensures email.None? ==> code == 500 && db.users == old(db.users)
    ensures email.Some? && Store.FindUserByEmail(old(db.users), JsText.NormalizeEmail(email.value)).None? ==>
      code == 404 && db.users == old(db.users)
    ensures email.Some? && Store.FindUserByEmail(old(db.users), JsText.NormalizeEmail(email.value)).Some? ==>
      var i := Store.FindUserByEmail(old(db.users), JsText.NormalizeEmail(email.value)).value;
      db.users == old(db.users)[i := Issued(old(db.users)[i], rand, nowMs)] &&
      code == (if mailOk then 200 else 500)
  {
    if email.None? {
      return 500;
    }
    var found := Store.FindUserByEmail(db.users, JsText.NormalizeEmail(email.value));
    if found.None? {
      return 404;
    }
    db.users := db.users[found.value := Issued(db.users[found.value], rand, nowMs)];
    code := if mailOk then 200 else 500;
  }

  /** sendOTP: the same new state as forgotPassword, written by a single
      find-and-update. */
  method SendOtp(db: Store.Db, email: Option<string>, rand: real, nowMs: int, mailOk: bool)
    returns (code: int, userId: Option<Id>)
    requires 0.0 <= rand < 1.0
    modifies db`users
    ensures email.None? ==> code == 500 && db.users == old(db.users)
    ensures email.Some? && Store.FindUserByEmail(old(db.users), JsText.NormalizeEmail(email.value)).None? ==>
      code == 404 && db.users == old(db.users)
    ensures email.Some? && Store.FindUserByEmail(old(db.users), JsText.NormalizeEmail(email.value)).Some? ==>
      var i := Store.FindUserByEmail(old(db.users), JsText.NormalizeEmail(email.value)).value;
      db.users == old(db.users)[i := Issued(old(db.users)[i], rand, nowMs)] &&
      code == (if mailOk then 200 else 500) &&
      (mailOk ==> userId == Some(old(db.users)[i].key))
  {
    userId := None;
    if email.None? {
      return 500, None;
    }
    var found := Store.FindUserByEmail(db.users, JsText.NormalizeEmail(email.value));
    if found.None? {
      return 404, None;
    }
    db.users := db.users[found.value := Issued(db.users[found.value], rand, nowMs)];
    if mailOk {
      code, userId := 200, Some(db.users[found.value].key);
    } else {
      code := 500;
    }
  }

  /** verifyOTP's test as written: the stored code must be the same value as
      the one given (`!==`, so an absent code equals an omitted one) and the
      expiry must not be before now (an absent expiry compares false and
      passes). */
  predicate AcceptsAsWritten(u: User, otp: Option<string>, nowMs: int)
  {
    u.otpCode == otp && !(u.otpExpires.Some? && u.otpExpires.value < nowMs)
  }

  /** The evidently intended test: a code was issued, the one given is that
      code, and it has not expired. */
  predicate Accepts(u: User, otp: Option<string>, nowMs: int)
  {
    u.otpCode.Some? && otp == u.otpCode && u.otpExpires.Some? && nowMs <= u.otpExpires.value
  }

  /** Where a code was issued the two tests agree; the corrected test only
      closes the case of a user without a code. */
  lemma TestsAgreeOnIssuedCodes(u: User, otp: Option<string>, nowMs: int)
    requires u.otpCode.Some? && u.otpExpires.Some?
    ensures AcceptsAsWritten(u, otp, nowMs) <==> Accepts(u, otp, nowMs)
  {
  }

  /** As written, a user that holds no code (none was issued, or the last
      one was used) is verified by a request that omits the code. */
  lemma VerifiedWithoutCode(u: User, nowMs: int)
    requires u.otpCode.None? && u.otpExpires.None?
    ensures AcceptsAsWritten(u, None, nowMs)
    ensures !Accepts(u, None, nowMs)
  {
  }

  /** A code issued at `t` is accepted up to and including `t` plus ten
      minutes and not after, and only that code is accepted. */
  lemma IssuedCodeLifetime(u: User, rand: real, t: int, otp: Option<string>, nowMs: int)
    requires 0.0 <= rand < 1.0
    ensures Accepts(Issued(u, rand, t), otp, nowMs) <==> otp == Some(OtpCode(rand)) && nowMs <= t + OtpLifetimeMs
  {
  }

  /** A used code is gone: nothing is accepted until a new one is issued. */
  lemma CodeIsSingleUse(u: User, otp: Option<string>, nowMs: int)
    ensures !Accepts(Cleared(u), otp, nowMs)
    ensures AcceptsAsWritten(Cleared(u), None, nowMs)
  {
  }

  /** verifyOTP as written: 400 for a missing or unknown user (`findById`
      of an undefined id looks for a null `_id` and finds nothing) or a
      failed test;
      otherwise the phone is marked verified and the code cleared. (The
      handler's `isEmailVerified` is not a path of the user schema, so it is
      not saved.) */
  method VerifyOtpAsWritten(db: Store.Db, userId: Option<Id>, otp: Option<string>, nowMs: int) returns (code: int)
    modifies db`users
    ensures userId.None? ==> code == 400 && db.users == old(db.users)
    ensures userId.Some? ==>
      var f := Store.FindUser(old(db.users), userId.value);
      if f.None? || !AcceptsAsWritten(old(db.users)[f.value], otp, nowMs)
      then code == 400 && db.users == old(db.users)
      else code == 200 && db.users == old(db.users)[f.value := Cleared(old(db.users)[f.value]).(isPhoneVerified := true)]
  {
    if userId.None? {
      return 400;
    }
    var found := Store.FindUser(db.users, userId.value);
    if found.None? || !AcceptsAsWritten(db.users[found.value], otp, nowMs) {
      return 400;
    }
    db.users := db.users[found.value := Cleared(db.users[found.value]).(isPhoneVerified := true)];
    code := 200;
  }

  /** verifyOTP as intended: the same, with the corrected test. */
  method VerifyOtp(db: Store.Db, userId: Option<Id>, otp: Option<string>, nowMs: int) returns (code: int)
    modifies db`users
    ensures userId.None? ==> code == 400 && db.users == old(db.users)
    ensures userId.Some? ==>
      var f := Store.FindUser(old(db.users), userId.value);
      if f.None? || !Accepts(old(db.users)[f.value], otp, nowMs)
      then code == 400 && db.users == old(db.users)
      else code == 200 && db.users == old(db.users)[f.value := Cleared(old(db.users)[f.value]).(isPhoneVerified := true)]
  {
    if userId.None? {
      return 400;
    }
    var found := Store.FindUser(db.users, userId.value);
    if found.None? || !Accepts(db.users[found.value], otp, nowMs) {
      return 400;
    }
    db.users := db.users[found.value := Cleared(db.users[found.value]).(isPhoneVerified := true)];
    code := 200;
  }

  /** resetPassword's query as written: the cleaned address, the same code,
      and an expiry strictly after now. A body without `otp` leaves the code
      undefined, and Mongoose drops an undefined filter key, so then any
      live code matches. */
  function ResetCandidateAsWritten(email: string, otp: Option<string>, nowMs: int): User -> bool
  {
    (u: User) => u.email == JsText.NormalizeEmail(email) && (otp.None? || u.otpCode == otp) &&
                 u.otpExpires.Some? && u.otpExpires.value > nowMs
  }

  /** resetPassword's query as intended: a code must be given, and be the
      user's live code. */
  function ResetCandidate(email: string, otp: Option<string>, nowMs: int): User -> bool
  {
    (u: User) => u.email == JsText.NormalizeEmail(email) && otp.Some? && u.otpCode == otp &&
                 u.otpExpires.Some? && u.otpExpires.value > nowMs
  }

  /** The two queries agree on every request that carries a code. */
  lemma ResetQueriesAgreeOnGivenCodes(email: string, otp: Option<string>, nowMs: int, u: User)
    requires otp.Some?
    ensures ResetCandidateAsWritten(email, otp, nowMs)(u) <==> ResetCandidate(email, otp, nowMs)(u)
  {
  }

  /** As written, anyone who knows an address takes over its account: the
      unauthenticated forgotPassword issues a code, and a reset request that
      omits `otp` then matches that user until the code expires. The
      intended query matches no request without a code. */
  lemma ResetWithoutCode(u: User, email: string, rand: real, t: int, nowMs: int)
    requires 0.0 <= rand < 1.0
    requires u.email == JsText.NormalizeEmail(email)
    requires t <= nowMs < t + OtpLifetimeMs
    ensures ResetCandidateAsWritten(email, None, nowMs)(Issued(u, rand, t))
    ensures forall v: User :: !ResetCandidate(email, None, nowMs)(v)
  {
  }

  /** At the instant of expiry a code still verifies but no longer resets a
      password. */
  lemma ExpiryInstantDiffers(u: User, otp: Option<string>, email: string)
    requires u.email == JsText.NormalizeEmail(email) && otp.Some? && u.otpCode == otp && u.otpExpires.Some?
    ensures Accepts(u, otp, u.otpExpires.value)
    ensures !ResetCandidate(email, otp, u.otpExpires.value)(u)
  {
  }

  /** resetPassword as written: a missing address throws (500); no user
      matching the query as written is 400; a missing or short new password
      fails validation (500, nothing saved); otherwise the password is
      replaced and the code cleared. */
  method ResetPasswordAsWritten(db: Store.Db, email: Option<string>, otp: Option<string>, newPassword: Option<string>, nowMs: int)
    returns (code: int)
    modifies db`users
    ensures email.None? ==> code == 500 && db.users == old(db.users)
    ensures email.Some? ==>
      var f := Seqs.IndexWhere(old(db.users), ResetCandidateAsWritten(email.value, otp, nowMs));
      if f.None? then code == 400 && db.users == old(db.users)
      else if newPassword.None? || |newPassword.value| < MinPasswordLength then code == 500 && db.users == old(db.users)
      else code == 200 &&
           db.users == old(db.users)[f.value := Cleared(old(db.users)[f.value]).(password := newPassword.value)] &&
           !ResetCandidateAsWritten(email.value, otp, nowMs)(db.users[f.value])
  {
    if email.None? {
      return 500;
    }
    var found := Seqs.IndexWhere(db.users, ResetCandidateAsWritten(email.value, otp, nowMs));
    if found.None? {
      return 400;
    }
    if newPassword.None? || |newPassword.value| < MinPasswordLength {
      return 500;
    }
    db.users := db.users[found.value := Cleared(db.users[found.value]).(password := newPassword.value)];
    code := 200;
  }

  /** resetPassword as intended: a missing address throws (500); no user
      matching the intended query (so any request without a code) is 400; a missing or short new password fails validation (500, nothing
      saved); otherwise the password is replaced and the code cleared, so
      it cannot reset again. */
  method ResetPassword(db: Store.Db, email: Option<string>, otp: Option<string>, newPassword: Option<string>, nowMs: int)
    returns (code: int)
    modifies db`users
    ensures email.None? ==> code == 500 && db.users == old(db.users)
    ensures email.Some? ==>
      var f := Seqs.IndexWhere(old(db.users), ResetCandidate(email.value, otp, nowMs));
      if f.None? then code == 400 && db.users == old(db.users)
      else if newPassword.None? || |newPassword.value| < MinPasswordLength then code == 500 && db.users == old(db.users)
      else code == 200 &&
           db.users == old(db.users)[f.value := Cleared(old(db.users)[f.value]).(password := newPassword.value)] &&
           !ResetCandidate(email.value, otp, nowMs)(db.users[f.value])
  {
    if email.None? {
      return 500;
    }
    var found := Seqs.IndexWhere(db.users, ResetCandidate(email.value, otp, nowMs));
    if found.None? {
      return 400;
    }
    if newPassword.None? || |newPassword.value| < MinPasswordLength {
      return 500;
    }
    db.users := db.users[found.value := Cleared(db.users[found.value]).(password := newPassword.value)];
    code := 200;
  }

  // ---------------------------------------------------------------------------
  // Registration

  datatype RegisterBody = RegisterBody(fullName: Option<string>, email: Option<string>, password: Option<string>,
                                       phone: Option<string>)

  /** The 400 guard `!fullName || !email || !password`. */
  predicate MissingField(b: RegisterBody)
  {
    b.fullName.None? || b.fullName.value == "" || b.email.None? || b.email.value == "" ||
    b.password.None? || b.password.value == ""
  }

  /** The role register writes. */
  const RoleAsWritten: string := "student"

  /** The role enum of the user schema has no "student", so the save of
      every new user throws. */
  lemma RoleAsWrittenIsRefused()
    ensures !IsUserRole(RoleAsWritten)
  {
  }

  /** register as written: 400 for a missing field or a taken address;
      every other request ends in 500 with nothing written, neither the
      user nor the student record. */
  method RegisterAsWritten(db: Store.Db, body: RegisterBody, userKey: Id, studentKey: Id, nowMs: int)
    returns (code: int)
    modifies db`users, db`students
    ensures MissingField(body) ==> code == 400
    ensures !MissingField(body) && Store.FindUserByEmail(old(db.users), JsText.NormalizeEmail(body.email.value)).Some? ==>
      code == 400
    ensures !MissingField(body) && Store.FindUserByEmail(old(db.users), JsText.NormalizeEmail(body.email.value)).None? ==>
      code == 500
    ensures db.users == old(db.users) && db.students == old(db.students)
  {
    if MissingField(body) {
      return 400;
    }
    var clean := JsText.NormalizeEmail(body.email.value);
    if Store.FindUserByEmail(db.users, clean).Some? {
      return 400;
    }
    RoleAsWrittenIsRefused();
    return 500;
  }

  /** The profile of a new user: the trimmed name, the trimmed phone when
      given, and the schema defaults. */
  function NewProfile(fullName: string, phone: Option<string>): (p: map<string, string>)
    ensures "fullName" in p && p["fullName"] == JsText.Trim(fullName)
    ensures "country" in p && p["country"] == "Canada"
    ensures phone.Some? <==> "phone" in p
    ensures phone.Some? ==> p["phone"] == JsText.Trim(phone.value)
  {
    var p := map["fullName" := JsText.Trim(fullName), "country" := "Canada", "avatar" := ""];
    if phone.Some? then p["phone" := JsText.Trim(phone.value)] else p
  }

  /** The user register creates, with the schema's default role. */
  function NewUser(key: Id, email: string, fullName: string, password: string, phone: Option<string>, nowMs: int)
    : (u: User)
    ensures u.key == key && u.email == email && u.password == password && IsUserRole(u.role)
    ensures u.profile == NewProfile(fullName, phone)
    ensures !u.isPhoneVerified && u.otpCode.None? && u.kycStatus == KycPending && u.referredStudents == []
  {
    User(key, email, password, "User", NewProfile(fullName, phone), None, None, false, NewKycData(nowMs),
         KycPending, [])
  }

  /** The student record that makes a new user visible to the admins. */
  function NewStudent(key: Id, userKey: Id, email: string, fullName: string, phone: Option<string>): (s: Student)
    ensures s.userId == Some(userKey) && s.referredBy.None? && s.email == email
    ensures s.name == JsText.Trim(fullName) && s.phone == JsText.TextOr(phone, "Not Provided") && s.phone != ""
    ensures s.status == "Pending" && s.kycStatus == KycPending && s.loan == "No"
  {
    Student(key, Some(userKey), None, JsText.Trim(fullName), email, JsText.TextOr(phone, "Not Provided"), 0.0,
            "Pending", KycPending, "No")
  }

  /** register as intended: 400 for a missing field or a taken address;
      500 with nothing written when the cleaned address or the name is
      blank (both are required paths) or the password is shorter than six
      characters; otherwise the user and its student
      record are appended and the user is found by the cleaned address. */
  method Register(db: Store.Db, body: RegisterBody, userKey: Id, studentKey: Id, nowMs: int)
    returns (code: int)
    modifies db`users, db`students
    ensures MissingField(body) ==> code == 400 && db.users == old(db.users) && db.students == old(db.students)
    ensures !MissingField(body) ==>
      var clean := JsText.NormalizeEmail(body.email.value);
      if Store.FindUserByEmail(old(db.users), clean).Some? then
        code == 400 && db.users == old(db.users) && db.students == old(db.students)
      else if clean == "" || JsText.Trim(body.fullName.value) == "" || |body.password.value| < MinPasswordLength then
        code == 500 && db.users == old(db.users) && db.students == old(db.students)
      else
        code == 201 &&
        db.users == old(db.users) + [NewUser(userKey, clean, body.fullName.value, body.password.value, body.phone, nowMs)] &&
        db.students == old(db.students) + [NewStudent(studentKey, userKey, clean, body.fullName.value, body.phone)] &&
        Store.FindUserByEmail(db.users, clean) == Some(|old(db.users)|)
  {
    if MissingField(body) {
      return 400;
    }
    var clean := JsText.NormalizeEmail(body.email.value);
    if Store.FindUserByEmail(db.users, clean).Some? {
      return 400;
    }
    if clean == "" || JsText.Trim(body.fullName.value) == "" || |body.password.value| < MinPasswordLength {
      return 500;
    }
    var user := NewUser(userKey, clean, body.fullName.value, body.password.value, body.phone, nowMs);
    var student := NewStudent(studentKey, userKey, clean, body.fullName.value, body.phone);
    Enrol(db, user, student);
    code := 201;
  }

  /** The two saves of a successful registration: the user, then its
      student record. */
  method Enrol(db: Store.Db, user: User, student: Student)
    modifies db`users, db`students
    requires Store.FindUserByEmail(db.users, user.email).None?
    ensures db.users == old(db.users) + [user] && db.students == old(db.students) + [student]
    ensures Store.FindUserByEmail(db.users, user.email) == Some(|old(db.users)|)
  {
    NewUserIsFound(db.users, user);
    db.users := db.users + [user];
    db.students := db.students + [student];
  }

  /** A user appended under an address no other user has is the one a
      lookup by that address finds. */
  lemma NewUserIsFound(users: seq<User>, u: User)
    requires Store.FindUserByEmail(users, u.email).None?
    ensures Store.FindUserByEmail(users + [u], u.email) == Some(|users|)
  {
    var all := users + [u];
    assert all[|users|].email == u.email;
  }

  // ---------------------------------------------------------------------------
  // Profile

  /** The fields updateProfile copies from the request. */
  const ProfileWhitelist: set<string> := {"fullName", "phone", "dob", "state", "address", "education", "gender", "maritalStatus"}

  /** The schema's `trim` setter, which the name and the phone carry. */
  function Setter(field: string, value: string): (r: string)
    ensures field == "fullName" || field == "phone" ==> r == JsText.Trim(value)
    ensures field != "fullName" && field != "phone" ==> r == value
  {
    if field == "fullName" || field == "phone" then JsText.Trim(value) else value
  }

  /** The `$set` document: the whitelisted fields the request defines, with
      the setters applied. */
  function ProfileUpdate(body: map<string, string>): (upd: map<string, string>)
    ensures forall k :: k in upd <==> k in body && k in ProfileWhitelist
    ensures forall k :: k in upd ==> upd[k] == Setter(k, body[k])
  {
    map k | k in body && k in ProfileWhitelist :: Setter(k, body[k])
  }

  /** The profile after the update: the copied fields replaced, every other
      field, the PIN and the country among them, as it was. */
  function UpdatedProfile(profile: map<string, string>, body: map<string, string>): (r: map<string, string>)
    ensures forall k :: k in body && k in ProfileWhitelist ==> k in r && r[k] == Setter(k, body[k])
    ensures forall k :: !(k in body && k in ProfileWhitelist) ==> (k in r <==> k in profile) && (k in profile ==> r[k] == profile[k])
  {
    profile + ProfileUpdate(body)
  }

  /** Nothing outside the whitelist can be changed through a profile update,
      whatever the request carries. */
  lemma WhitelistGuardsOtherFields(profile: map<string, string>, body: map<string, string>)
    ensures "ssnPin" in UpdatedProfile(profile, body) <==> "ssnPin" in profile
    ensures "country" in UpdatedProfile(profile, body) <==> "country" in profile
    ensures "ssnPin" in profile ==> UpdatedProfile(profile, body)["ssnPin"] == profile["ssnPin"]
  {
    assert "ssnPin" !in ProfileWhitelist by {
      assert "ssnPin"[0] != "gender"[0];
    }
    assert "country" !in ProfileWhitelist by {
      assert "country"[0] != "address"[0];
    }
  }

  /** The student record of a user: the first whose `userId` is it. */
  function OfUser(userId: Id): Student -> bool
  {
    (s: Student) => s.userId == Some(userId)
  }

  /** The student sync: the request's name and phone copied when it defines
      them. The student schema trims the name but not the phone, so the
      phone is stored exactly as sent. */
  function SyncedStudent(s: Student, body: map<string, string>): (r: Student)
    ensures r.name == (if "fullName" in body then JsText.Trim(body["fullName"]) else s.name)
    ensures r.phone == (if "phone" in body then body["phone"] else s.phone)
    ensures r.(name := s.name, phone := s.phone) == s
  {
    s.(name := if "fullName" in body then JsText.Trim(body["fullName"]) else s.name,
       phone := if "phone" in body then body["phone"] else s.phone)
  }

  /** updateProfile: a blank name fails validation (500, nothing written);
      otherwise the caller's profile is updated, the caller's student record
      takes the new name and phone, and the answer is 200 (with no user when
      the caller has no account). */
  method UpdateProfile(db: Store.Db, userId: Id, body: map<string, string>) returns (code: int, updated: Option<User>)
    modifies db`users, db`students
    ensures var upd := ProfileUpdate(body);
      if "fullName" in upd && upd["fullName"] == "" then
        code == 500 && db.users == old(db.users) && db.students == old(db.students)
      else
        code == 200 &&
        (match Store.FindUser(old(db.users), userId)
         case None => updated.None? && db.users == old(db.users)
         case Some(i) =>
           var u := old(db.users)[i].(profile := UpdatedProfile(old(db.users)[i].profile, body));
           updated == Some(u) && db.users == old(db.users)[i := u]) &&
        (match Seqs.IndexWhere(old(db.students), OfUser(userId))
         case None => db.students == old(db.students)
         case Some(j) => db.students == old(db.students)[j := SyncedStudent(old(db.students)[j], body)])
  {
    var upd := ProfileUpdate(body);
    if "fullName" in upd && upd["fullName"] == "" {
      return 500, None;
    }
    updated := None;
    var found := Store.FindUser(db.users, userId);
    if found.Some? {
      var u := db.users[found.value].(profile := UpdatedProfile(db.users[found.value].profile, body));
      db.users := db.users[found.value := u];
      updated := Some(u);
    }
    var student := Seqs.IndexWhere(db.students, OfUser(userId));
    if student.Some? {
      db.students := db.students[student.value := SyncedStudent(db.students[student.value], body)];
    }
    code := 200;
  }
}
