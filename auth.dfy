/** Registration, email verification, login and the password reset of
    server/customer-controllers/authController.js. bcrypt, the random tokens and nodemailer are
    foreign calls: their results (`hashed`, `token`, `qrHash`, whether the mail went out, and
    whether a password matches a stored hash) are parameters. */
module Auth {
  import opened Util
  import opened Tables
  import opened Stores

  // ------------------------------------------------------------------
  // register
  // ------------------------------------------------------------------

  datatype RegisterReply =
    | FieldsRequired          // 400 "All fields are required"
    | EmailTaken              // 409 "Email already exists"
    | RegisterFailed          // 500 "Error hashing password" (the mail could not be sent)
    | Registered(userID: int) // 201

  /** The row `register` inserts: an unverified customer holding the verification token and a
      QR hash. */
  function RegisteredAccount(name: string, email: string, hashed: string, token: string, qrHash: string, now: int): (u: User)
    ensures u.role == Customer && !u.isVerified && u.verificationToken == Some(token) && u.qrcode == Some(qrHash)
    ensures u.email == email && u.password == hashed && u.pointsBalance == 0
  {
    NewAccount(name, email, hashed, Customer, now).(verificationToken := Some(token), qrcode := Some(qrHash))
  }

  /** `register`: the row is only inserted once the verification mail has gone out. */
  method Register(s: Store, name: Option<string>, email: Option<string>, password: Option<string>,
                  hashed: string, token: string, qrHash: string, mailSent: bool, now: int)
    returns (reply: RegisterReply)
    requires s.Valid()
    modifies s
    ensures s.Valid()
    ensures s.rewards == old(s.rewards) && s.redemptions == old(s.redemptions) && s.transactions == old(s.transactions)
    ensures FalsyStr(name) || FalsyStr(email) || FalsyStr(password) ==> reply == FieldsRequired && s.users == old(s.users)
    ensures !(FalsyStr(name) || FalsyStr(email) || FalsyStr(password)) ==>
              if FindEmail(old(s.users), email.value).Some? then reply == EmailTaken && s.users == old(s.users)
              else if !mailSent then reply == RegisterFailed && s.users == old(s.users)
              else && reply == Registered(old(s.nextUserID))
                   && s.users == old(s.users) + [RegisteredAccount(name.value, email.value, hashed, token, qrHash, now).(userID := old(s.nextUserID))]
    ensures UniqueEmails(old(s.users)) ==> UniqueEmails(s.users)
  {
    if FalsyStr(name) || FalsyStr(email) || FalsyStr(password) {
      return FieldsRequired;
    }
    if FindEmail(s.users, email.value).Some? {
      return EmailTaken;
    }
    if !mailSent {
      return RegisterFailed;
    }
    var id := s.AddUser(RegisteredAccount(name.value, email.value, hashed, token, qrHash, now));
    reply := Registered(id);
  }

  // ------------------------------------------------------------------
  // verifyEmail
  // ------------------------------------------------------------------

  /** `SELECT * FROM users WHERE verificationToken = ? AND isVerified = 0`. */
  predicate AwaitsVerification(u: User, token: string)
  {
    u.verificationToken == Some(token) && !u.isVerified
  }

  /** `UPDATE users SET isVerified = 1, verificationToken = NULL WHERE verificationToken = ?`. */
  function MarkVerified(us: seq<User>, token: string): (r: seq<User>)
    ensures |r| == |us|
    ensures forall k :: 0 <= k < |us| ==>
              r[k] == if us[k].verificationToken == Some(token) then us[k].(isVerified := true, verificationToken := None) else us[k]
  {
    UpdateUsersWhere(us, (u: User) => u.verificationToken == Some(token),
                     (u: User) => u.(isVerified := true, verificationToken := None))
  }

  /** `verifyEmail`: every reply is the same redirect; the result says whether a row was
      verified. */
  method VerifyEmail(s: Store, token: string) returns (verified: bool)
    requires s.Valid()
    modifies s
    ensures s.Valid()
    ensures s.rewards == old(s.rewards) && s.redemptions == old(s.redemptions) && s.transactions == old(s.transactions)
    ensures verified <==> exists k :: 0 <= k < |old(s.users)| && AwaitsVerification(old(s.users)[k], token)
    ensures verified ==> s.users == MarkVerified(old(s.users), token)
    ensures !verified ==> s.users == old(s.users)
  {
    var found := FirstIndex(s.users, (u: User) => AwaitsVerification(u, token));
    if found.None? {
      return false;
    }
    var updated := MarkVerified(s.users, token);
    assert forall k :: 0 <= k < |updated| ==> updated[k].userID == s.users[k].userID;
    s.SetUsers(updated);
    verified := true;
  }

  /** A verification link works once: after it has been used no row holds the token, so the
      same link verifies nothing the second time. */
  lemma VerificationTokenSingleUse(us: seq<User>, token: string)
    ensures forall k :: 0 <= k < |us| ==> !AwaitsVerification(MarkVerified(us, token)[k], token)
    ensures forall k :: 0 <= k < |us| && AwaitsVerification(us[k], token) ==> MarkVerified(us, token)[k].isVerified
  {
  }

  // ------------------------------------------------------------------
  // login
  // ------------------------------------------------------------------

  datatype LoginReply =
    | CredentialsRequired  // 400 "Please provide email and password."
    | InvalidCredentials   // 401 "Invalid email or password"
    | AccountInactive      // 403
    | LoggedIn(userID: int, role: Role, name: string, email: string, pointsBalance: int) // 200, with a signed token

  /** `SELECT * FROM users WHERE email = ? AND isVerified = 1`, first row; the email is
      compared as the collation compares it. */
  function FindVerified(us: seq<User>, email: string): (r: Option<nat>)
    ensures r.Some? ==> r.value < |us| && SameText(us[r.value].email, email) && us[r.value].isVerified
    ensures r.None? <==> forall k :: 0 <= k < |us| ==> !(SameText(us[k].email, email) && us[k].isVerified)
  {
    FirstIndex(us, (u: User) => SameText(u.email, email) && u.isVerified)
  }

  /** `login`. `matches(password, hash)` is `bcrypt.compare`. */
  function Login(users: seq<User>, email: Option<string>, password: Option<string>,
                 matches: (string, string) -> bool): (r: LoginReply)
    ensures FalsyStr(email) || FalsyStr(password) ==> r == CredentialsRequired
    ensures r.LoggedIn? ==>
              && !FalsyStr(email) && !FalsyStr(password) && FindVerified(users, email.value).Some?
              && var u := users[FindVerified(users, email.value).value];
                 && u.status == Active && matches(password.value, u.password)
                 && r == LoggedIn(u.userID, u.role, u.name, u.email, u.pointsBalance)
    ensures r == AccountInactive ==>
              && !FalsyStr(email) && FindVerified(users, email.value).Some?
              && users[FindVerified(users, email.value).value].status == Inactive
    ensures !(FalsyStr(email) || FalsyStr(password)) && FindVerified(users, email.value).None? ==> r == InvalidCredentials
  {
    if FalsyStr(email) || FalsyStr(password) then CredentialsRequired
    else match FindVerified(users, email.value)
      case None => InvalidCredentials
      case Some(k) =>
        var u := users[k];
        if u.status == Inactive then AccountInactive
        else if !matches(password.value, u.password) then InvalidCredentials
        else LoggedIn(u.userID, u.role, u.name, u.email, u.pointsBalance)
  }

  /** An account that has not been verified never logs in, and an inactive account is turned
      away whatever the password; the same 401 answers an unknown email and a wrong password. */
  lemma LoginGating(users: seq<User>, email: string, password: string, matches: (string, string) -> bool)
    requires email != "" && password != ""
    requires UniqueEmails(users)
    ensures forall k :: 0 <= k < |users| && SameText(users[k].email, email) && !users[k].isVerified ==>
              Login(users, Some(email), Some(password), matches) == InvalidCredentials
    ensures forall k :: 0 <= k < |users| && SameText(users[k].email, email) && users[k].isVerified && users[k].status == Inactive ==>
              Login(users, Some(email), Some(password), matches) == AccountInactive
    ensures forall k :: 0 <= k < |users| && SameText(users[k].email, email) && users[k].isVerified && users[k].status == Active
                        && !matches(password, users[k].password) ==>
              Login(users, Some(email), Some(password), matches) == InvalidCredentials
  {
    forall k | 0 <= k < |users| && SameText(users[k].email, email)
      ensures FindVerified(users, email) == (if users[k].isVerified then Some(k) else None)
    {
      match FindVerified(users, email)
      case None =>
      case Some(i) => assert i == k;
    }
  }

  // ------------------------------------------------------------------
  // forgotPassword and resetPassword
  // ------------------------------------------------------------------

  /** A reset link is valid for one hour. */
  const ResetWindow: int := 3600000

  datatype ForgotReply =
    | EmailRequired   // 400 "Email is required"
    | EmailNotFound   // 500 "Email not found"
    | MailFailed      // 500 "Could not sent email" (the token is already stored)
    | ResetMailSent   // 200 "Check your email to reset your password"

  /** `UPDATE users SET resetToken = ?, resetExpires = ? WHERE email = ?`, the email compared
      as the collation compares it. */
  function StoreResetToken(us: seq<User>, email: string, token: string, expires: int): (r: seq<User>)
    ensures |r| == |us|
    ensures forall k :: 0 <= k < |us| ==>
              r[k] == if SameText(us[k].email, email) then us[k].(resetToken := Some(token), resetExpires := Some(expires)) else us[k]
  {
    UpdateUsersWhere(us, (u: User) => SameText(u.email, email),
                     (u: User) => u.(resetToken := Some(token), resetExpires := Some(expires)))
  }

  /** `forgotPassword`: the token and an expiry one hour after `now` are stored before the mail
      is attempted. */
  method ForgotPassword(s: Store, email: Option<string>, token: string, now: int, mailSent: bool)
    returns (reply: ForgotReply)
    requires s.Valid()
    modifies s
    ensures s.Valid()
    ensures s.rewards == old(s.rewards) && s.redemptions == old(s.redemptions) && s.transactions == old(s.transactions)
    ensures FalsyStr(email) ==> reply == EmailRequired && s.users == old(s.users)
    ensures !FalsyStr(email) && FindEmail(old(s.users), email.value).None? ==> reply == EmailNotFound && s.users == old(s.users)
    ensures !FalsyStr(email) && FindEmail(old(s.users), email.value).Some? ==>
              && s.users == StoreResetToken(old(s.users), email.value, token, now + ResetWindow)
              && reply == (if mailSent then ResetMailSent else MailFailed)
  {
    if FalsyStr(email) {
      return EmailRequired;
    }
    if FindEmail(s.users, email.value).None? {
      return EmailNotFound;
    }
    var updated := StoreResetToken(s.users, email.value, token, now + ResetWindow);
    assert forall k :: 0 <= k < |updated| ==> updated[k].userID == s.users[k].userID;
    s.SetUsers(updated);
    reply := if mailSent then ResetMailSent else MailFailed;
  }

  datatype ResetReply =
    | PasswordRequired  // 500 "Password is required"
    | InvalidToken      // 400 "Invalid or expired token"
    | PasswordReset     // 200 "Password reset successful"

  /** `resetToken = ? AND resetExpires > NOW()`. */
  predicate HoldsLiveToken(u: User, token: string, now: int)
  {
    u.resetToken == Some(token) && u.resetExpires.Some? && u.resetExpires.value > now
  }

  /** `UPDATE users SET password = ?, resetToken = NULL, resetExpires = NULL WHERE userID = ?`. */
  function ApplyReset(us: seq<User>, id: int, hashed: string): (r: seq<User>)
    ensures |r| == |us|
    ensures forall k :: 0 <= k < |us| ==>
              r[k] == if us[k].userID == id then us[k].(password := hashed, resetToken := None, resetExpires := None) else us[k]
  {
    UpdateUser(us, id, (u: User) => u.(password := hashed, resetToken := None, resetExpires := None))
  }

  /** `resetPassword`: the first row holding the token while it is still live gets the new
      password hash, and loses the token. */
  method ResetPassword(s: Store, token: string, password: Option<string>, hashed: string, now: int)
    returns (reply: ResetReply)
    requires s.Valid()
    modifies s
    ensures s.Valid()
    ensures s.rewards == old(s.rewards) && s.redemptions == old(s.redemptions) && s.transactions == old(s.transactions)
    ensures FalsyStr(password) ==> reply == PasswordRequired && s.users == old(s.users)
    ensures !FalsyStr(password) && (forall k :: 0 <= k < |old(s.users)| ==> !HoldsLiveToken(old(s.users)[k], token, now)) ==>
              reply == InvalidToken && s.users == old(s.users)
    ensures !FalsyStr(password) && reply != InvalidToken ==>
              exists k :: && 0 <= k < |old(s.users)| && HoldsLiveToken(old(s.users)[k], token, now)
                          && (forall j :: 0 <= j < k ==> !HoldsLiveToken(old(s.users)[j], token, now))
                          && reply == PasswordReset
                          && s.users == ApplyReset(old(s.users), old(s.users)[k].userID, hashed)
  {
    if FalsyStr(password) {
      return PasswordRequired;
    }
    var found := FirstIndex(s.users, (u: User) => HoldsLiveToken(u, token, now));
    if found.None? {
      return InvalidToken;
    }
    var updated := ApplyReset(s.users, s.users[found.value].userID, hashed);
    assert forall k :: 0 <= k < |updated| ==> updated[k].userID == s.users[k].userID;
    s.SetUsers(updated);
    reply := PasswordReset;
  }

  /** A token is stored with an expiry one hour ahead, is live until then and dead from then
      on, and after a reset the row that used it holds no token at all. */
  lemma ResetTokenLifecycle(us: seq<User>, email: string, token: string, now: int, later: int, k: nat, hashed: string)
    requires k < |us| && SameText(us[k].email, email)
    ensures var stored := StoreResetToken(us, email, token, now + ResetWindow);
      && (later < now + ResetWindow <==> HoldsLiveToken(stored[k], token, later))
      && ApplyReset(stored, stored[k].userID, hashed)[k].resetToken.None?
      && !HoldsLiveToken(ApplyReset(stored, stored[k].userID, hashed)[k], token, later)
  {
  }

  // ------------------------------------------------------------------
  // getQRCode
  // ------------------------------------------------------------------

  /** 404 "User not found", or the address the QR image encodes (200; drawing the image is a
      foreign call). */
  datatype QrReply = QrUserNotFound | QrLink(url: string)

  /** `process.env.CLIENT_URL || "http://localhost:5173"`, the environment value a parameter. */
  function ClientBase(clientUrl: Option<string>): (base: string)
    ensures FalsyStr(clientUrl) ==> base == "http://localhost:5173"
    ensures !FalsyStr(clientUrl) ==> base == clientUrl.value
  {
    if FalsyStr(clientUrl) then "http://localhost:5173" else clientUrl.value
  }

  /** A nullable column pasted into a template literal: the text, or "null". */
  function CodeText(code: Option<string>): string
  {
    if code.Some? then code.value else "null"
  }

  /** `getQRCode`: the staff console address carrying the customer's stored QR hash. */
  function GetQRCode(users: seq<User>, userID: int, clientUrl: Option<string>): (r: QrReply)
    ensures r.QrUserNotFound? <==> FindUser(users, userID).None?
    ensures r.QrLink? ==>
              r.url == ClientBase(clientUrl) + "/staff?qrHash=" + CodeText(users[FindUser(users, userID).value].qrcode)
  {
    match FindUser(users, userID)
    case None => QrUserNotFound
    case Some(k) => QrLink(ClientBase(clientUrl) + "/staff?qrHash=" + CodeText(users[k].qrcode))
  }
}
